/**
 Completing the requests of a Codex signed in with an API key, from the text of the request to the
 text that is sent.

 What serde reads of one tool and of one item of `input` is given as a function of its text.
 */
module KeyLoginRequest {
  import opened Basics
  import opened Json
  import opened JsonReader
  import opened JsonText
  import opened KeyLogin

  // ---- the answers ----

  /** An item of `input`: the call it is, if it is one of a completed tool's, or the output it answers with. */
  datatype Item = Item(start: nat, text: string, callId: string, call: Option<Call>, isOutput: bool, output: Option<string>)

  /** The calls of the request; of two with one id the later one counts. */
  function CallsIn(items: seq<Item>): map<string, Call>
  {
    if items == [] then map[]
    else
      var last := items[|items| - 1];
      if last.call.Some? then CallsIn(items[..|items| - 1])[last.callId := last.call.value] else CallsIn(items[..|items| - 1])
  }

  predicate OccursAt(text: string, needle: string, at: int)
  {
    0 <= at && at + |needle| <= |text| && text[at..at + |needle|] == needle
  }

  /** The first place the needle stands at, from a position on. */
  function FindFrom(text: string, needle: string, at: nat): (r: Option<nat>)
    ensures r.Some? ==> at <= r.value && OccursAt(text, needle, r.value)
    ensures forall i :: at <= i && (r.Some? ==> i < r.value) ==> !OccursAt(text, needle, i)
    decreases |text| - at
  {
    if at + |needle| > |text| then None
    else if OccursAt(text, needle, at) then Some(at)
    else FindFrom(text, needle, at + 1)
  }

  function OutputMember(output: string): string
  {
    "\"output\":" + StringText(output, false)
  }

  /** What the pool knows of the tools: the answer of a Codex without one, and a native Codex's. */
  datatype Answers = Answers(unsupported: Call -> string, native: Call -> Option<string>)

  /** A native Codex's answer, where the client's Codex could not run a tool it was not offering. */
  function AnswerOf(item: Item, calls: map<string, Call>, log: map<string, Call>, known: Answers): Option<string>
  {
    if !item.isOutput || item.output.None? then None
    else
      var call := if item.callId in calls then Some(calls[item.callId]) else if item.callId in log then Some(log[item.callId]) else None;
      if call.None? || item.output.value != known.unsupported(call.value) then None else known.native(call.value)
  }

  /** The edit of one answer: the first place where the item's text has the old one. */
  function AnswerEdit(item: Item, calls: map<string, Call>, log: map<string, Call>, known: Answers): Option<Splice>
  {
    match AnswerOf(item, calls, log, known)
    case None => None
    case Some(answer) =>
      var needle := OutputMember(item.output.value);
      match FindFrom(item.text, needle, 0)
      case None => None
      case Some(at) => Some(Splice(item.start + at, item.start + at + |needle|, OutputMember(answer)))
  }

  function ItemSpan(item: Item): Span
  {
    Span(item.start, item.start + |item.text|)
  }

  lemma AnswerWithin(item: Item, calls: map<string, Call>, log: map<string, Call>, known: Answers)
    ensures var edit := AnswerEdit(item, calls, log, known); edit.Some? ==> Within(edit.value, ItemSpan(item))
  {
    if item.output.Some? {
      assert |OutputMember(item.output.value)| > 0;
    }
  }

  /** The edits of all items that have one, in order. */
  function AnswerEdits(items: seq<Item>, calls: map<string, Call>, log: map<string, Call>, known: Answers): seq<Splice>
  {
    if items == [] then []
    else
      var before := AnswerEdits(items[..|items| - 1], calls, log, known);
      match AnswerEdit(items[|items| - 1], calls, log, known)
      case Some(edit) => before + [edit]
      case None => before
  }

  /** Which item each edit belongs to. */
  lemma {:induction false} EditsFollowItems(items: seq<Item>, calls: map<string, Call>, log: map<string, Call>, known: Answers)
    returns (of: seq<nat>)
    ensures var edits := AnswerEdits(items, calls, log, known);
      |of| == |edits| && forall k :: 0 <= k < |of| ==>
        of[k] < |items| && AnswerEdit(items[of[k]], calls, log, known) == Some(edits[k])
    ensures forall j, k :: 0 <= j < k < |of| ==> of[j] < of[k]
    ensures forall i :: 0 <= i < |items| ==> (AnswerEdit(items[i], calls, log, known).Some? <==> i in of)
  {
    hide AnswerEdit;
    of := [];
    if items != [] {
      var last := |items| - 1;
      of := EditsFollowItems(items[..last], calls, log, known);
      if AnswerEdit(items[last], calls, log, known).Some? {
        of := of + [last];
      }
    }
  }

  method AnsweredCalls(items: seq<Item>, log: map<string, Call>, known: Answers) returns (edits: seq<Splice>)
    ensures edits == AnswerEdits(items, CallsIn(items), log, known)
  {
    hide AnswerEdit;
    edits := [];
    var calls := map[];
    assert items[..0] == [];
    for i := 0 to |items|
      invariant calls == CallsIn(items[..i])
    {
      assert items[..i + 1][..i] == items[..i];
      if items[i].call.Some? {
        calls := calls[items[i].callId := items[i].call.value];
      }
    }
    assert items[..|items|] == items;
    for i := 0 to |items|
      invariant edits == AnswerEdits(items[..i], calls, log, known)
    {
      assert items[..i + 1][..i] == items[..i];
      var edit := AnswerEdit(items[i], calls, log, known);
      if edit.Some? {
        edits := edits + [edit.value];
      }
    }
  }

  // ---- where the members stand ----

  /** What serde reads of one item. */
  datatype Seen = Seen(callId: string, call: Option<Call>, isOutput: bool, output: Option<string>)

  function ItemOf(start: nat, text: string, seen: string -> Seen): Item
  {
    Item(start, text, seen(text).callId, seen(text).call, seen(text).isOutput, seen(text).output)
  }

  /** The spans of the members of `body` with a name. */
  function Named(fields: seq<Field>, name: string): seq<Span>
  {
    if fields == [] then []
    else (if fields[0].name == name then [fields[0].at] else []) + Named(fields[1..], name)
  }

  /** The member with a name, unless it is null. */
  function MemberAt(body: string, fields: seq<Field>, name: string): Option<Span>
  {
    var spans := Named(fields, name);
    if spans == [] || (spans[0].start <= spans[0].end <= |body| && body[spans[0].start..spans[0].end] == "null") then None
    else Some(spans[0])
  }

  datatype Top = Top(tools: Option<Span>, metadata: Option<Span>, input: Option<Span>)

  /** What serde reads of the request: an object that gives none of the three twice. */
  function ReadTop(body: string): Option<Top>
  {
    match Fields(body)
    case None => None
    case Some(fields) =>
      if |Named(fields, "tools")| > 1 || |Named(fields, "client_metadata")| > 1 || |Named(fields, "input")| > 1 then None
      else
        Some(Top(MemberAt(body, fields, "tools"), MemberAt(body, fields, "client_metadata"), MemberAt(body, fields, "input")))
  }

  lemma {:induction false} NamedIs(fields: seq<Field>, name: string) returns (i: nat)
    requires Named(fields, name) != []
    ensures i < |fields| && fields[i].name == name && Named(fields, name)[0] == fields[i].at
  {
    i := 0;
    if fields[0].name != name {
      var j := NamedIs(fields[1..], name);
      i := j + 1;
    }
  }

  lemma MembersApart(body: string, fields: seq<Field>, a: string, b: string)
    requires InOrder(Places(fields), 0, |body|) && a != b
    ensures Proper(MemberAt(body, fields, a), |body|)
    ensures ApartIfBoth(MemberAt(body, fields, a), MemberAt(body, fields, b))
  {
    hide Named;
    if MemberAt(body, fields, a).Some? {
      var i := NamedIs(fields, a);
      assert Places(fields)[i] == fields[i].at;
      if MemberAt(body, fields, b).Some? {
        var j := NamedIs(fields, b);
        assert Places(fields)[j] == fields[j].at;
        assert i < j || j < i;
      }
    }
  }

  /** The items of `input` with their places in the request; none if it is no array. */
  function ItemsIn(body: string, input: Option<Span>, seen: string -> Seen): seq<Item>
    requires Proper(input, |body|)
  {
    if input.None? then []
    else
      var text := body[input.value.start..input.value.end];
      match ItemSpans(text)
      case None => []
      case Some(spans) =>
        seq(|spans|, i requires 0 <= i < |spans| =>
          ItemOf(input.value.start + spans[i].start, TextsAt(text, spans)[i], seen))
  }

  function ItemPlaces(items: seq<Item>): (r: seq<Span>)
    ensures |r| == |items| && forall i :: 0 <= i < |items| ==> r[i] == ItemSpan(items[i])
  {
    seq(|items|, i requires 0 <= i < |items| => ItemSpan(items[i]))
  }

  lemma ItemsApart(body: string, input: Option<Span>, seen: string -> Seen)
    requires Proper(input, |body|)
    ensures var places := ItemPlaces(ItemsIn(body, input, seen));
      && (places != [] ==> input.Some?)
      && (forall i :: 0 <= i < |places| ==> input.value.start <= places[i].start && places[i].end <= input.value.end)
      && forall i, j :: 0 <= i < |places| && 0 <= j < |places| && i != j ==> Apart(places[i], places[j])
  {
    hide ItemSpans, ReadDocument, IsRaw;
    if input.Some? {
      var text := body[input.value.start..input.value.end];
      ItemSpansOf(text);
      if ItemSpans(text).Some? {
        var spans, places := ItemSpans(text).value, ItemPlaces(ItemsIn(body, input, seen));
        assert |places| == |spans|;
        forall i | 0 <= i < |spans|
          ensures places[i] == Span(input.value.start + spans[i].start, input.value.start + spans[i].end)
        {
        }
      }
    }
  }

  /** Where serde finds the three members and the items, nothing overlaps. */
  lemma TopIsParsed(body: string, seen: string -> Seen)
    requires ReadTop(body).Some?
    ensures var top := ReadTop(body).value;
      Proper(top.input, |body|)
      && Parsed(top.tools, top.metadata, top.input, ItemPlaces(ItemsIn(body, top.input, seen)), |body|)
  {
    hide Fields, ReadDocument, Named, InOrder, Places, MemberAt, ItemsIn;
    FieldsOf(body);
    var fields, top := Fields(body).value, ReadTop(body).value;
    assert "tools"[0] != "client_metadata"[0] && "tools"[0] != "input"[0] && "client_metadata"[0] != "input"[0];
    MembersApart(body, fields, "tools", "client_metadata");
    MembersApart(body, fields, "tools", "input");
    MembersApart(body, fields, "client_metadata", "input");
    MembersApart(body, fields, "input", "tools");
    ItemsApart(body, top.input, seen);
  }

  // ---- the whole completion ----

  /** Everything `complete` is given besides the request. */
  datatype Completion = Completion(
    head: string -> Head,
    seen: string -> Seen,
    helpers: Option<seq<Tool>>,
    image: Option<Tool>,
    guardian: bool,
    log: map<string, Call>,
    known: Answers)

  function ToolsEdit(body: string, span: Option<Span>, c: Completion): Option<Splice>
    requires Proper(span, |body|)
  {
    if span.None? then None
    else
      match CompletedToolsText(body[span.value.start..span.value.end], c.head, c.helpers, c.image)
      case Some(text) => Some(Splice(span.value.start, span.value.end, text))
      case None => None
  }

  function MetadataEdit(body: string, span: Option<Span>, guardian: bool): Option<Splice>
    requires Proper(span, |body|)
  {
    if span.None? || !guardian then None
    else
      match WithGuardianCredits(body[span.value.start..span.value.end])
      case Some(text) => Some(Splice(span.value.start, span.value.end, text))
      case None => None
  }

  /** The edits of a request, and the request with all of them made at once. */
  function EditsOf(body: string, c: Completion): seq<Splice>
  {
    match ReadTop(body)
    case None => []
    case Some(top) =>
      TopIsParsed(body, c.seen);
      var items := ItemsIn(body, top.input, c.seen);
      Edits(ToolsEdit(body, top.tools, c), MetadataEdit(body, top.metadata, c.guardian),
            AnswerEdits(items, CallsIn(items), c.log, c.known))
  }

  function Completed(body: string, c: Completion): string
  {
    Substituted(body, EditsOf(body, c), 0)
  }

  /** The edits never overlap, whatever the request. */
  lemma EditsOfAreDisjoint(body: string, c: Completion)
    ensures Disjoint(EditsOf(body, c), |body|)
  {
    hide ReadTop, AnswerEdit, AnswerEdits, CompletedToolsText, WithGuardianCredits, CallsIn, ItemsIn, Disjoint, Parsed;
    match ReadTop(body)
    case None => NoEdits(body);
    case Some(top) =>
      TopIsParsed(body, c.seen);
      ParsedIsProper(top.tools, top.metadata, top.input, ItemPlaces(ItemsIn(body, top.input, c.seen)), |body|);
      var items := ItemsIn(body, top.input, c.seen);
      var answers := AnswerEdits(items, CallsIn(items), c.log, c.known);
      var of := EditsFollowItems(items, CallsIn(items), c.log, c.known);
      forall k | 0 <= k < |of| ensures Within(answers[k], ItemPlaces(items)[of[k]]) {
        AnswerWithin(items[of[k]], CallsIn(items), c.log, c.known);
      }
      EditsAreDisjoint(top.tools, top.metadata, top.input, ItemPlaces(items), |body|,
                       ToolsEdit(body, top.tools, c), MetadataEdit(body, top.metadata, c.guardian), answers, of);
  }

  lemma ParsedIsProper(tools: Option<Span>, metadata: Option<Span>, input: Option<Span>, items: seq<Span>, length: nat)
    requires Parsed(tools, metadata, input, items, length)
    ensures Proper(tools, length) && Proper(metadata, length)
  {
  }

  lemma NoEdits(body: string)
    ensures Disjoint([], |body|) && Substituted(body, [], 0) == body
  {
    Untouched(body, [], 0, |body|);
    assert body[0..|body|] == body;
  }

  /**
   `complete`: the body with the tools, the metadata and the answers substituted at once, whatever the
   order they are applied in, and every other character as the client wrote it.
   */
  method Complete(body: string, c: Completion) returns (out: string)
    ensures out == Completed(body, c)
  {
    hide AnswerEdits, CompletedToolsText, WithGuardianCredits, Substituted, CallsIn, ItemsIn, ReadTop;
    var top := ReadTop(body);
    if top.None? {
      NoEdits(body);
      return body;
    }
    TopIsParsed(body, c.seen);
    ParsedIsProper(top.value.tools, top.value.metadata, top.value.input,
                   ItemPlaces(ItemsIn(body, top.value.input, c.seen)), |body|);
    var splices := [];
    if top.value.tools.Some? {
      var at := top.value.tools.value;
      var text := CompleteTools(body[at.start..at.end], c.head, c.helpers, c.image);
      if text.Some? {
        splices := splices + [Splice(at.start, at.end, text.value)];
      }
    }
    if top.value.metadata.Some? && c.guardian {
      var at := top.value.metadata.value;
      var text := WithGuardianCredits(body[at.start..at.end]);
      if text.Some? {
        splices := splices + [Splice(at.start, at.end, text.value)];
      }
    }
    var answers := AnsweredCalls(ItemsIn(body, top.value.input, c.seen), c.log, c.known);
    splices := splices + answers;
    assert splices == EditsOf(body, c);
    if splices == [] {
      NoEdits(body);
      return body;
    }
    EditsOfAreDisjoint(body, c);
    out := ApplySplices(body, splices);
  }
}
