/**
 What the completion of requests of a Codex signed in with an API key is made of: edits of a text,
 the tools and the metadata it adds, and the log of calls.
 */
module KeyLogin {
  import opened Basics
  import opened Json
  import opened JsonReader
  import opened JsonText
  import opened GoSort

  // ---- splices ----

  /** Replace body[start..end] with text. */
  datatype Splice = Splice(start: nat, end: nat, text: string)

  /** Non-empty spans of the body, no two of which overlap. */
  ghost predicate Disjoint(splices: seq<Splice>, length: nat)
  {
    && (forall i :: 0 <= i < |splices| ==> splices[i].start < splices[i].end <= length)
    && (forall i, j :: 0 <= i < |splices| && 0 <= j < |splices| && i != j ==>
          splices[i].end <= splices[j].start || splices[j].end <= splices[i].start)
  }

  /** The splice that starts at a position, if one does. */
  function StartingAt(splices: seq<Splice>, at: nat): (r: Option<Splice>)
    ensures r.Some? ==> r.value in splices && r.value.start == at
    ensures r.None? ==> forall i :: 0 <= i < |splices| ==> splices[i].start != at
  {
    if splices == [] then None
    else if splices[0].start == at then Some(splices[0])
    else StartingAt(splices[1..], at)
  }

  /** All the splices at once, from a position on: read left to right, each span read as its text. */
  function Substituted(body: string, splices: seq<Splice>, at: nat): string
    decreases |body| - at
  {
    if at >= |body| then ""
    else
      match StartingAt(splices, at)
      case Some(splice) =>
        if at < splice.end <= |body| then splice.text + Substituted(body, splices, splice.end) else ""
      case None => [body[at]] + Substituted(body, splices, at + 1)
  }

  function LaterFirst(): Less<Splice>
  {
    (n: nat, x: Splice, y: Splice) => x.start > y.start
  }

  /** `String::replace_range`. */
  function ReplaceRange(text: string, start: nat, end: nat, with: string): string
    requires start <= end <= |text|
  {
    text[..start] + with + text[end..]
  }

  lemma FirstAndRest<T>(s: seq<T>, a: nat, b: nat, rest: seq<T>)
    requires a < b <= |s|
    ensures [s[a]] + (s[a + 1..b] + rest) == s[a..b] + rest
  {
    assert s[a..b] == [s[a]] + s[a + 1..b];
  }

  /** Where no splice starts, the body is read as it is. */
  lemma {:induction false} Untouched(body: string, splices: seq<Splice>, a: nat, b: nat)
    requires a <= b <= |body|
    requires forall i :: 0 <= i < |splices| ==> !(a <= splices[i].start < b)
    ensures Substituted(body, splices, a) == body[a..b] + Substituted(body, splices, b)
    decreases b - a
  {
    hide StartingAt;
    if a < b {
      Untouched(body, splices, a + 1, b);
      assert StartingAt(splices, a).None?;
      var rest := Substituted(body, splices, b);
      assert Substituted(body, splices, a) == [body[a]] + (body[a + 1..b] + rest);
      FirstAndRest(body, a, b, rest);
    } else {
      assert body[a..b] == "";
    }
  }

  lemma OneStartsThere(splices: seq<Splice>, length: nat, splice: Splice)
    requires Disjoint(splices, length) && splice in splices
    ensures StartingAt(splices, splice.start) == Some(splice)
  {
    var i :| 0 <= i < |splices| && splices[i] == splice;
    var found := StartingAt(splices, splice.start);
    assert found.Some?;
    var j :| 0 <= j < |splices| && splices[j] == found.value;
  }

  /** One edit from the back: what follows it is substituted already. */
  lemma SpliceStep(body: string, splices: seq<Splice>, splice: Splice, p: nat, out: string)
    requires Disjoint(splices, |body|) && splice in splices && splice.end <= p <= |body|
    requires forall i :: 0 <= i < |splices| ==> splices[i].start <= splice.start || splices[i].start >= p
    requires out == body[..p] + Substituted(body, splices, p)
    ensures splice.end <= |out|
    ensures ReplaceRange(out, splice.start, splice.end, splice.text)
         == body[..splice.start] + Substituted(body, splices, splice.start)
  {
    hide Substituted, StartingAt, ReplaceRange;
    Untouched(body, splices, splice.end, p);
    SubstitutedThere(body, splices, splice);
    Recomposed(body, p, Substituted(body, splices, p), splice.start, splice.end, splice.text, out);
    Associative(body[..splice.start], splice.text, Substituted(body, splices, splice.end));
  }

  lemma SubstitutedThere(body: string, splices: seq<Splice>, splice: Splice)
    requires Disjoint(splices, |body|) && splice in splices
    ensures Substituted(body, splices, splice.start) == splice.text + Substituted(body, splices, splice.end)
  {
    OneStartsThere(splices, |body|, splice);
  }

  lemma Recomposed(body: string, p: nat, tail: string, start: nat, end: nat, text: string, out: string)
    requires start <= end <= p <= |body| && out == body[..p] + tail
    ensures end <= |out| && ReplaceRange(out, start, end, text) == body[..start] + text + (body[end..p] + tail)
  {
    assert out[..start] == body[..start];
    assert out[end..] == body[end..p] + tail;
  }

  lemma LaterFirstIsConsistent()
    ensures Consistent(LaterFirst())
  {
  }

  /** The edits in the order they are applied. */
  lemma Arranged(splices: seq<Splice>, length: nat)
    requires Disjoint(splices, length)
    ensures var sorted := StableSort(splices, LaterFirst());
      && Disjoint(sorted, length) && (forall splice :: splice in sorted <==> splice in splices)
      && forall i, j :: 0 <= i < j < |sorted| ==> sorted[j].end <= sorted[i].start
  {
    hide StableSort, Consistent;
    var sorted := StableSort(splices, LaterFirst());
    LaterFirstIsConsistent();
    StableSortIsStable(splices, LaterFirst());
    forall splice ensures splice in sorted <==> splice in splices {
      assert splice in multiset(sorted) <==> splice in multiset(splices);
    }
    forall i, j | 0 <= i < |sorted| && 0 <= j < |sorted| && i < j ensures sorted[j].end <= sorted[i].start {
      assert sorted[i] in splices && sorted[j] in splices;
      if sorted[i] == sorted[j] {
        TwiceThere(splices, sorted, i, j);
        assert false;
      }
      var k :| 0 <= k < |splices| && splices[k] == sorted[i];
      var l :| 0 <= l < |splices| && splices[l] == sorted[j];
      assert k != l;
      assert !LaterFirst()(0, sorted[j], sorted[i]);
    }
    forall i | 0 <= i < |sorted| ensures sorted[i].start < sorted[i].end <= length {
      assert sorted[i] in splices;
    }
  }

  /** An element that stands twice in a permutation stands twice in the original. */
  lemma TwiceThere(splices: seq<Splice>, sorted: seq<Splice>, i: nat, j: nat)
    requires multiset(sorted) == multiset(splices) && i < j < |sorted| && sorted[i] == sorted[j]
    ensures exists k, l :: 0 <= k < l < |splices| && splices[k] == splices[l] == sorted[i]
  {
    var x := sorted[i];
    assert sorted == sorted[..j] + [sorted[j]] + sorted[j + 1..];
    assert sorted[..j] == sorted[..i] + [sorted[i]] + sorted[i + 1..j];
    assert multiset(sorted)[x] >= 2;
    Twice(splices, x);
  }

  lemma {:induction false} Twice(s: seq<Splice>, x: Splice)
    requires multiset(s)[x] >= 2
    ensures exists k, l :: 0 <= k < l < |s| && s[k] == s[l] == x
  {
    assert s == s[..|s| - 1] + [s[|s| - 1]];
    var init := s[..|s| - 1];
    if s[|s| - 1] == x {
      assert x in multiset(init);
      var k :| 0 <= k < |init| && init[k] == x;
      assert s[k] == x && s[|s| - 1] == x;
    } else {
      Twice(init, x);
      var k, l :| 0 <= k < l < |init| && init[k] == init[l] == x;
      assert s[k] == s[l] == x;
    }
  }

  /** The splices of `complete`, applied one after the other from the back, are one substitution. */
  method ApplySplices(body: string, splices: seq<Splice>) returns (out: string)
    requires Disjoint(splices, |body|)
    ensures out == Substituted(body, splices, 0)
  {
    hide StableSort, StartingAt, Substituted;
    var sorted := StableSort(splices, LaterFirst());
    Arranged(splices, |body|);
    out := body;
    ghost var p: nat := |body|;
    AtTheEnd(body, splices);
    for i := 0 to |sorted|
      invariant p <= |body| && out == body[..p] + Substituted(body, splices, p)
      invariant p == if i == 0 then |body| else sorted[i - 1].start
    {
      var splice := sorted[i];
      assert splice in splices;
      forall k | 0 <= k < |splices| ensures splices[k].start <= splice.start || splices[k].start >= p {
        assert splices[k] in sorted;
        var j :| 0 <= j < |sorted| && sorted[j] == splices[k];
        assert j < i || j == i || j > i;
      }
      SpliceStep(body, splices, splice, p, out);
      out := ReplaceRange(out, splice.start, splice.end, splice.text);
      p := splice.start;
    }
    forall k | 0 <= k < |splices| ensures splices[k].start >= p {
      assert splices[k] in sorted;
      var j :| 0 <= j < |sorted| && sorted[j] == splices[k];
      assert j == |sorted| - 1 || j < |sorted| - 1;
    }
    Untouched(body, splices, 0, p);
    assert body[0..p] == body[..p];
  }

  lemma AtTheEnd(body: string, splices: seq<Splice>)
    ensures body == body[..|body|] + Substituted(body, splices, |body|)
  {
  }

  // ---- the spans do not overlap ----

  ghost predicate Within(splice: Splice, span: Span)
  {
    span.start <= splice.start < splice.end <= span.end
  }

  ghost predicate Apart(a: Span, b: Span)
  {
    a.end <= b.start || b.end <= a.start
  }

  ghost predicate ApartIfBoth(a: Option<Span>, b: Option<Span>)
  {
    a.Some? && b.Some? ==> Apart(a.value, b.value)
  }

  ghost predicate Proper(span: Option<Span>, length: nat)
  {
    span.Some? ==> span.value.start < span.value.end <= length
  }

  /** Where serde found the three members and the items of `input`. */
  ghost predicate Parsed(tools: Option<Span>, metadata: Option<Span>, input: Option<Span>, items: seq<Span>, length: nat)
  {
    && ApartIfBoth(tools, metadata) && ApartIfBoth(tools, input) && ApartIfBoth(metadata, input)
    && Proper(tools, length) && Proper(metadata, length) && Proper(input, length)
    && (items != [] ==> input.Some?)
    && (forall i :: 0 <= i < |items| ==> input.value.start <= items[i].start && items[i].end <= input.value.end)
    && (forall i, j :: 0 <= i < |items| && 0 <= j < |items| && i != j ==> Apart(items[i], items[j]))
  }

  /** The edits of a request: the tools, the metadata, and at most one answer in each item. */
  function Edits(tools: Option<Splice>, metadata: Option<Splice>, answers: seq<Splice>): seq<Splice>
  {
    (if tools.Some? then [tools.value] else []) + ((if metadata.Some? then [metadata.value] else []) + answers)
  }

  lemma EditsAreDisjoint(tools: Option<Span>, metadata: Option<Span>, input: Option<Span>, items: seq<Span>, length: nat,
                         t: Option<Splice>, m: Option<Splice>, answers: seq<Splice>, of: seq<nat>)
    requires Parsed(tools, metadata, input, items, length)
    requires t.Some? ==> tools == Some(Span(t.value.start, t.value.end))
    requires m.Some? ==> metadata == Some(Span(m.value.start, m.value.end))
    requires |of| == |answers| && forall i :: 0 <= i < |of| ==> of[i] < |items| && Within(answers[i], items[of[i]])
    requires forall i, j :: 0 <= i < j < |of| ==> of[i] != of[j]
    ensures Disjoint(Edits(t, m, answers), length)
  {
    hide Disjoint, Within;
    AnswersAreDisjoint(tools, metadata, input, items, length, answers, of);
    OneMore(answers, m, length);
    var some := (if m.Some? then [m.value] else []) + answers;
    forall i | t.Some? && 0 <= i < |some| ensures t.value.end <= some[i].start || some[i].end <= t.value.start {
      if m.Some? && i == 0 {
        assert some[0] == m.value;
      } else {
        assert some[i] == answers[if m.Some? then i - 1 else i];
      }
    }
    OneMore(some, t, length);
  }

  lemma AnswersAreDisjoint(tools: Option<Span>, metadata: Option<Span>, input: Option<Span>, items: seq<Span>, length: nat,
                           answers: seq<Splice>, of: seq<nat>)
    requires Parsed(tools, metadata, input, items, length)
    requires |of| == |answers| && forall i :: 0 <= i < |of| ==> of[i] < |items| && Within(answers[i], items[of[i]])
    requires forall i, j :: 0 <= i < j < |of| ==> of[i] != of[j]
    ensures Disjoint(answers, length)
    ensures answers != [] ==> input.Some?
    ensures forall i :: 0 <= i < |answers| ==>
      input.value.start <= answers[i].start < answers[i].end <= input.value.end
  {
    assert forall i :: 0 <= i < |of| ==> of[i] < |items| && Within(answers[i], items[of[i]]);
    assert answers != [] ==> of[0] < |items|;
    forall i, j | 0 <= i < j < |answers| ensures answers[i].end <= answers[j].start || answers[j].end <= answers[i].start {
      assert Apart(items[of[i]], items[of[j]]);
      assert Within(answers[i], items[of[i]]) && Within(answers[j], items[of[j]]);
    }
  }

  lemma OneMore(splices: seq<Splice>, m: Option<Splice>, length: nat)
    requires Disjoint(splices, length)
    requires m.Some? ==> m.value.start < m.value.end <= length
    requires m.Some? ==> forall i :: 0 <= i < |splices| ==> m.value.end <= splices[i].start || splices[i].end <= m.value.start
    ensures Disjoint((if m.Some? then [m.value] else []) + splices, length)
  {
  }

  // ---- the tools ----

  datatype Tool = Tool(kind: string, name: string, text: string)

  const SHELL_TOOLS := ["exec_command", "write_stdin", "shell", "shell_command", "local_shell"]
  const AFTER_EXTENSION_TOOLS := ["tool_search", "web_search"]
  const RESOURCE_TOOLS := ["list_mcp_resources", "list_mcp_resource_templates", "read_mcp_resource"]
  const IMAGE_GEN := "image_gen"

  predicate Offered(tools: seq<Tool>, name: string)
  {
    exists i :: 0 <= i < |tools| && tools[i].name == name
  }

  /** How many shell tools the client's list begins with. */
  function ShellCount(tools: seq<Tool>): (n: nat)
    ensures n <= |tools| && (forall i :: 0 <= i < n ==> tools[i].name in SHELL_TOOLS)
    ensures n < |tools| ==> tools[n].name !in SHELL_TOOLS
  {
    if tools != [] && tools[0].name in SHELL_TOOLS then 1 + ShellCount(tools[1..]) else 0
  }

  predicate AfterExtensions(tool: Tool)
  {
    tool.kind in AFTER_EXTENSION_TOOLS || tool.name in AFTER_EXTENSION_TOOLS
  }

  /** The position of the first tool that follows the extensions. */
  function ExtensionsEnd(tools: seq<Tool>): (n: nat)
    ensures n <= |tools| && (forall i :: 0 <= i < n ==> !AfterExtensions(tools[i]))
    ensures n < |tools| ==> AfterExtensions(tools[n])
  {
    if tools == [] || AfterExtensions(tools[0]) then 0 else 1 + ExtensionsEnd(tools[1..])
  }

  datatype Addition = Addition(at: nat, added: seq<Tool>)

  /** What is missing: the helpers the catalog allows, and image_gen if the account has it. */
  function HelpersMissing(tools: seq<Tool>, helpers: Option<seq<Tool>>): Option<Addition>
  {
    if (exists name :: name in RESOURCE_TOOLS && Offered(tools, name)) || helpers.None? then None
    else Some(Addition(ShellCount(tools), helpers.value))
  }

  function ImageMissing(tools: seq<Tool>, image: Option<Tool>): Option<Addition>
  {
    if Offered(tools, IMAGE_GEN) || image.None? then None
    else Some(Addition(ExtensionsEnd(tools), [image.value]))
  }

  function Before(addition: Option<Addition>, i: nat): seq<Tool>
  {
    if addition.Some? && addition.value.at == i then addition.value.added else []
  }

  /** The client's tools from position i on, each preceded by what belongs before it, helpers first. */
  function Placed(tools: seq<Tool>, helpers: Option<Addition>, image: Option<Addition>, i: nat): seq<Tool>
    requires i <= |tools|
    decreases |tools| - i
  {
    Before(helpers, i) + Before(image, i)
    + if i == |tools| then [] else [tools[i]] + Placed(tools, helpers, image, i + 1)
  }

  function InsertAll(tools: seq<Tool>, at: nat, added: seq<Tool>): (r: seq<Tool>)
    requires at <= |tools|
    ensures |r| == |tools| + |added|
  {
    tools[..at] + added + tools[at..]
  }

  /** `texts.insert(at + i, text)` for each addition in turn. */
  method InsertEach(tools: seq<Tool>, at: nat, added: seq<Tool>) returns (r: seq<Tool>)
    requires at <= |tools|
    ensures r == InsertAll(tools, at, added)
  {
    r := tools;
    for i := 0 to |added|
      invariant r == tools[..at] + added[..i] + tools[at..]
    {
      r := r[..at + i] + [added[i]] + r[at + i..];
      assert added[..i + 1] == added[..i] + [added[i]];
    }
    assert added[..|added|] == added;
  }

  /** `completed_tools`: None when nothing is missing. */
  method CompletedTools(tools: seq<Tool>, helpers: Option<seq<Tool>>, image: Option<Tool>) returns (r: Option<seq<Tool>>)
    ensures r == CompletedToolsSpec(tools, helpers, image)
  {
    var h, g := HelpersMissing(tools, helpers), ImageMissing(tools, image);
    var additions := (if h.Some? then [h.value] else []) + (if g.Some? then [g.value] else []);
    if additions == [] {
      return None;
    }
    if |additions| == 2 && additions[1].at < additions[0].at {
      additions := [additions[1], additions[0]];
    }
    var texts := tools;
    var last := additions[|additions| - 1];
    texts := InsertEach(texts, last.at, last.added);
    if |additions| == 2 {
      texts := InsertEach(texts, additions[0].at, additions[0].added);
    }
    PlacedWhole(tools, h, g);
    return Some(texts);
  }

  function CompletedToolsSpec(tools: seq<Tool>, helpers: Option<seq<Tool>>, image: Option<Tool>): Option<seq<Tool>>
  {
    var h, g := HelpersMissing(tools, helpers), ImageMissing(tools, image);
    if h.None? && g.None? then None else Some(Placed(tools, h, g, 0))
  }

  ghost predicate Fits(addition: Option<Addition>, tools: seq<Tool>)
  {
    addition.Some? ==> addition.value.at <= |tools|
  }

  /** Before its first position nothing is placed. */
  lemma {:induction false} PlacedFrom(tools: seq<Tool>, h: Option<Addition>, g: Option<Addition>, a: nat, b: nat)
    requires a <= b <= |tools|
    requires forall i :: a <= i < b ==> Before(h, i) == [] && Before(g, i) == []
    ensures Placed(tools, h, g, a) == tools[a..b] + Placed(tools, h, g, b)
    decreases b - a
  {
    hide Before;
    if a < b {
      PlacedFrom(tools, h, g, a + 1, b);
      assert Before(h, a) == [] && Before(g, a) == [];
      var rest := Placed(tools, h, g, b);
      assert Placed(tools, h, g, a) == [] + [] + ([tools[a]] + (tools[a + 1..b] + rest));
      FirstAndRest(tools, a, b, rest);
    } else {
      assert tools[a..b] == [];
    }
  }

  /** From the last position on, the rest is the client's own. */
  lemma PlacedRest(tools: seq<Tool>, h: Option<Addition>, g: Option<Addition>, a: nat)
    requires a <= |tools|
    requires forall i :: a <= i <= |tools| ==> Before(h, i) == [] && Before(g, i) == []
    ensures Placed(tools, h, g, a) == tools[a..]
  {
    PlacedFrom(tools, h, g, a, |tools|);
    assert tools[a..|tools|] == tools[a..];
  }

  lemma PlacedHere(tools: seq<Tool>, h: Option<Addition>, g: Option<Addition>, a: nat, b: nat)
    requires a <= b <= |tools| && forall i: nat :: a < i < b ==> Before(h, i) == [] && Before(g, i) == []
    requires a < b || (b == |tools| && a == b)
    ensures Placed(tools, h, g, a)
         == Before(h, a) + Before(g, a) + tools[a..b] + (if b == a then [] else Placed(tools, h, g, b))
  {
    hide Before;
    if a < b {
      PlacedFrom(tools, h, g, a + 1, b);
      FirstAndRest(tools, a, b, Placed(tools, h, g, b));
      Associative(Before(h, a) + Before(g, a), tools[a..b], Placed(tools, h, g, b));
    } else {
      assert tools[a..b] == [];
    }
  }

  /** Nothing is placed after position a. */
  lemma PlacedLast(tools: seq<Tool>, h: Option<Addition>, g: Option<Addition>, a: nat)
    requires a <= |tools| && forall i: nat :: a < i <= |tools| ==> Before(h, i) == [] && Before(g, i) == []
    ensures Placed(tools, h, g, a) == Before(h, a) + Before(g, a) + tools[a..]
  {
    hide Before;
    if a < |tools| {
      PlacedRest(tools, h, g, a + 1);
      assert tools[a..] == [tools[a]] + tools[a + 1..];
    }
  }

  /** Two additions, the later inserted first. */
  lemma InsertTwice(tools: seq<Tool>, a: nat, x: seq<Tool>, b: nat, y: seq<Tool>)
    requires a <= b <= |tools|
    ensures InsertAll(InsertAll(tools, b, y), a, x) == tools[..a] + (x + tools[a..b] + (y + tools[b..]))
  {
    var once := tools[..b] + y + tools[b..];
    assert once[..a] == tools[..a];
    assert once[a..] == tools[a..b] + (y + tools[b..]);
  }

  /** Placing both is inserting the later one first. */
  lemma PlacedWhole(tools: seq<Tool>, h: Option<Addition>, g: Option<Addition>)
    requires Fits(h, tools) && Fits(g, tools)
    ensures h.Some? && g.None? ==> Placed(tools, h, g, 0) == InsertAll(tools, h.value.at, h.value.added)
    ensures h.None? && g.Some? ==> Placed(tools, h, g, 0) == InsertAll(tools, g.value.at, g.value.added)
    ensures h.Some? && g.Some? && h.value.at <= g.value.at ==>
      Placed(tools, h, g, 0) == InsertAll(InsertAll(tools, g.value.at, g.value.added), h.value.at, h.value.added)
    ensures h.Some? && g.Some? && g.value.at < h.value.at ==>
      Placed(tools, h, g, 0) == InsertAll(InsertAll(tools, h.value.at, h.value.added), g.value.at, g.value.added)
  {
    hide Placed, InsertAll, Before;
    if h.Some? && g.Some? {
      if h.value.at < g.value.at {
        HelpersEarlier(tools, h.value, g.value);
      } else if g.value.at < h.value.at {
        ImageEarlier(tools, h.value, g.value);
      } else {
        SamePlace(tools, h.value, g.value);
      }
    } else if h.Some? {
      Alone(tools, h.value);
    } else if g.Some? {
      Alone(tools, g.value);
    }
  }

  predicate ShellName(name: string)
  {
    name == "exec_command" || name == "write_stdin" || name == "shell" || name == "shell_command" || name == "local_shell"
  }

  predicate Searches(tool: Tool)
  {
    tool.kind == "tool_search" || tool.kind == "web_search" || tool.name == "tool_search" || tool.name == "web_search"
  }

  predicate ResourceName(name: string)
  {
    name == "list_mcp_resources" || name == "list_mcp_resource_templates" || name == "read_mcp_resource"
  }

  /** Two groups at two places; at one place the first group comes first. */
  function Inserted(tools: seq<Tool>, a: nat, x: seq<Tool>, b: nat, y: seq<Tool>): seq<Tool>
    requires a <= |tools| && b <= |tools|
  {
    if a <= b then tools[..a] + (x + tools[a..b] + (y + tools[b..])) else tools[..b] + (y + tools[b..a] + (x + tools[a..]))
  }

  /**
   What is added to the client's tools. The resource helpers stand behind the shell tools the list begins
   with, unless one of them is offered; image generation stands before the first search tool, or last,
   unless it is offered; the helpers come first at a shared place. With neither to add there is nothing.
   */
  lemma ToolsAddedExactly(tools: seq<Tool>, helpers: Option<seq<Tool>>, image: Option<Tool>) returns (a: nat, b: nat)
    ensures a <= |tools| && (forall i :: 0 <= i < a ==> ShellName(tools[i].name))
    ensures a < |tools| ==> !ShellName(tools[a].name)
    ensures b <= |tools| && (forall i :: 0 <= i < b ==> !Searches(tools[i])) && (b < |tools| ==> Searches(tools[b]))
    ensures
      var withHelpers := helpers.Some? && forall i :: 0 <= i < |tools| ==> !ResourceName(tools[i].name);
      var withImage := image.Some? && forall i :: 0 <= i < |tools| ==> tools[i].name != "image_gen";
      CompletedToolsSpec(tools, helpers, image) ==
        if !withHelpers && !withImage then None
        else Some(Inserted(tools, a, if withHelpers then helpers.value else [], b, if withImage then [image.value] else []))
  {
    hide *;
    a, b := ShellCount(tools), ExtensionsEnd(tools);
    PlacesAre(tools);
    MissingIs(tools, helpers, image);
    var h, g := HelpersMissing(tools, helpers), ImageMissing(tools, image);
    SpecIs(tools, helpers, image);
    PlacedWhole(tools, h, g);
    var x, y := if h.Some? then h.value.added else [], if g.Some? then g.value.added else [];
    InsertedIs(tools, a, x, b, y);
  }

  lemma SpecIs(tools: seq<Tool>, helpers: Option<seq<Tool>>, image: Option<Tool>)
    ensures var h, g := HelpersMissing(tools, helpers), ImageMissing(tools, image);
      && Fits(h, tools) && Fits(g, tools)
      && CompletedToolsSpec(tools, helpers, image) == if h.None? && g.None? then None else Some(Placed(tools, h, g, 0))
  {
    hide Placed, ShellCount, ExtensionsEnd, Offered;
  }

  lemma PlacesAre(tools: seq<Tool>)
    ensures var a, b := ShellCount(tools), ExtensionsEnd(tools);
      && a <= |tools| && (forall i :: 0 <= i < a ==> ShellName(tools[i].name)) && (a < |tools| ==> !ShellName(tools[a].name))
      && b <= |tools| && (forall i :: 0 <= i < b ==> !Searches(tools[i])) && (b < |tools| ==> Searches(tools[b]))
  {
    hide ShellCount, ExtensionsEnd, ShellName, Searches, AfterExtensions;
    forall i | 0 <= i < |tools|
      ensures (tools[i].name in SHELL_TOOLS <==> ShellName(tools[i].name)) && (AfterExtensions(tools[i]) <==> Searches(tools[i]))
    {
      NamesAre(tools[i]);
    }
  }

  lemma MissingIs(tools: seq<Tool>, helpers: Option<seq<Tool>>, image: Option<Tool>)
    ensures
      var withHelpers := helpers.Some? && forall i :: 0 <= i < |tools| ==> !ResourceName(tools[i].name);
      HelpersMissing(tools, helpers) == if withHelpers then Some(Addition(ShellCount(tools), helpers.value)) else None
    ensures
      var withImage := image.Some? && forall i :: 0 <= i < |tools| ==> tools[i].name != "image_gen";
      ImageMissing(tools, image) == if withImage then Some(Addition(ExtensionsEnd(tools), [image.value])) else None
  {
    hide ShellCount, ExtensionsEnd, ResourceName;
    OfferedIs(tools);
  }

  lemma OfferedIs(tools: seq<Tool>)
    ensures (exists name :: name in RESOURCE_TOOLS && Offered(tools, name))
      <==> exists i :: 0 <= i < |tools| && ResourceName(tools[i].name)
  {
    forall i | 0 <= i < |tools| ensures tools[i].name in RESOURCE_TOOLS <==> ResourceName(tools[i].name) {
      NamesAre(tools[i]);
    }
    if i :| 0 <= i < |tools| && ResourceName(tools[i].name) {
      assert Offered(tools, tools[i].name);
    }
  }

  lemma InsertedIs(tools: seq<Tool>, a: nat, x: seq<Tool>, b: nat, y: seq<Tool>)
    requires a <= |tools| && b <= |tools|
    ensures a <= b ==> InsertAll(InsertAll(tools, b, y), a, x) == Inserted(tools, a, x, b, y)
    ensures b < a ==> InsertAll(InsertAll(tools, a, x), b, y) == Inserted(tools, a, x, b, y)
    ensures InsertAll(tools, a, x) == Inserted(tools, a, x, b, []) && InsertAll(tools, b, y) == Inserted(tools, a, [], b, y)
  {
    if a <= b {
      InsertTwice(tools, a, x, b, y);
    } else {
      InsertTwice(tools, b, y, a, x);
    }
  }

  lemma NamesAre(tool: Tool)
    ensures tool.name in SHELL_TOOLS <==> ShellName(tool.name)
    ensures AfterExtensions(tool) <==> Searches(tool)
    ensures tool.name in RESOURCE_TOOLS <==> ResourceName(tool.name)
  {
  }

  lemma NothingElsewhere(x: Addition)
    ensures Before(Some(x), x.at) == x.added
    ensures forall i: nat :: i != x.at ==> Before(Some(x), i) == []
    ensures forall i: nat :: Before(None, i) == []
  {
  }

  lemma HelpersEarlier(tools: seq<Tool>, h: Addition, g: Addition)
    requires h.at < g.at <= |tools|
    ensures Placed(tools, Some(h), Some(g), 0) == InsertAll(InsertAll(tools, g.at, g.added), h.at, h.added)
  {
    hide Placed, InsertAll, Before;
    NothingElsewhere(h);
    NothingElsewhere(g);
    TwoPlaced(tools, Some(h), Some(g), h.at, g.at);
    NoneAround(h.added, g.added, tools[h.at..g.at], tools[g.at..]);
    InsertTwice(tools, h.at, h.added, g.at, g.added);
  }

  lemma ImageEarlier(tools: seq<Tool>, h: Addition, g: Addition)
    requires g.at < h.at <= |tools|
    ensures Placed(tools, Some(h), Some(g), 0) == InsertAll(InsertAll(tools, h.at, h.added), g.at, g.added)
  {
    hide Placed, InsertAll, Before;
    NothingElsewhere(h);
    NothingElsewhere(g);
    TwoPlaced(tools, Some(h), Some(g), g.at, h.at);
    NoneAround(g.added, h.added, tools[g.at..h.at], tools[h.at..]);
    InsertTwice(tools, g.at, g.added, h.at, h.added);
  }

  lemma NoneAround(x: seq<Tool>, y: seq<Tool>, between: seq<Tool>, rest: seq<Tool>)
    ensures x + [] + between + ([] + y + rest) == x + between + (y + rest)
    ensures [] + x + between + (y + [] + rest) == x + between + (y + rest)
  {
    assert x + [] == x && [] + x == x && y + [] == y && [] + y == y;
  }

  lemma SamePlace(tools: seq<Tool>, h: Addition, g: Addition)
    requires h.at == g.at <= |tools|
    ensures Placed(tools, Some(h), Some(g), 0) == InsertAll(InsertAll(tools, g.at, g.added), h.at, h.added)
  {
    hide Placed, InsertAll, Before;
    NothingElsewhere(h);
    NothingElsewhere(g);
    OnePlaced(tools, Some(h), Some(g), h.at);
    InsertTwice(tools, h.at, h.added, g.at, g.added);
    assert tools[h.at..g.at] == [] && h.added + [] == h.added;
  }

  lemma Alone(tools: seq<Tool>, a: Addition)
    requires a.at <= |tools|
    ensures Placed(tools, Some(a), None, 0) == InsertAll(tools, a.at, a.added)
    ensures Placed(tools, None, Some(a), 0) == InsertAll(tools, a.at, a.added)
  {
    hide Placed, InsertAll, Before;
    NothingElsewhere(a);
    OnePlaced(tools, Some(a), None, a.at);
    OnePlaced(tools, None, Some(a), a.at);
    InsertOnce(tools, a.at, a.added);
    assert [] + tools[a.at..] == tools[a.at..] && [] + (a.added + tools[a.at..]) == a.added + tools[a.at..];
  }

  lemma InsertOnce(tools: seq<Tool>, a: nat, x: seq<Tool>)
    requires a <= |tools|
    ensures InsertAll(tools, a, x) == tools[..a] + (x + tools[a..])
  {
  }

  lemma OnePlaced(tools: seq<Tool>, h: Option<Addition>, g: Option<Addition>, a: nat)
    requires a <= |tools| && forall i: nat :: i <= |tools| && i != a ==> Before(h, i) == [] && Before(g, i) == []
    ensures Placed(tools, h, g, 0) == tools[..a] + (Before(h, a) + (Before(g, a) + tools[a..]))
  {
    hide Before, Placed;
    PlacedFrom(tools, h, g, 0, a);
    PlacedLast(tools, h, g, a);
    assert tools[0..a] == tools[..a];
    Associative(Before(h, a), Before(g, a), tools[a..]);
  }

  lemma TwoPlaced(tools: seq<Tool>, h: Option<Addition>, g: Option<Addition>, a: nat, b: nat)
    requires a < b <= |tools|
    requires forall i: nat :: i <= |tools| && i != a && i != b ==> Before(h, i) == [] && Before(g, i) == []
    ensures Placed(tools, h, g, 0)
         == tools[..a] + (Before(h, a) + Before(g, a) + tools[a..b] + (Before(h, b) + Before(g, b) + tools[b..]))
  {
    hide Before, Placed;
    PlacedFrom(tools, h, g, 0, a);
    PlacedHere(tools, h, g, a, b);
    PlacedLast(tools, h, g, b);
    assert tools[0..a] == tools[..a];
  }

  // ---- what the client's list keeps, and a second pass ----

  function Count(addition: Option<Addition>): nat
  {
    if addition.Some? then |addition.value.added| else 0
  }

  /** Where the client's tool i stands afterwards. */
  function Position(h: Option<Addition>, g: Option<Addition>, i: nat): nat
  {
    i + (if h.Some? && h.value.at <= i then Count(h) else 0) + (if g.Some? && g.value.at <= i then Count(g) else 0)
  }

  /** Every tool of the client at its position, and the additions together at theirs. */
  ghost predicate InPlace(tools: seq<Tool>, h: Option<Addition>, g: Option<Addition>, r: seq<Tool>)
  {
    && |r| == |tools| + Count(h) + Count(g)
    && (forall i :: 0 <= i < |tools| ==> Position(h, g, i) < |r| && r[Position(h, g, i)] == tools[i])
    && (forall k :: 0 <= k < Count(h) ==>
          h.value.at + (if g.Some? && g.value.at < h.value.at then Count(g) else 0) + k < |r|
          && r[h.value.at + (if g.Some? && g.value.at < h.value.at then Count(g) else 0) + k] == h.value.added[k])
    && (forall k :: 0 <= k < Count(g) ==>
          g.value.at + (if h.Some? && h.value.at <= g.value.at then Count(h) else 0) + k < |r|
          && r[g.value.at + (if h.Some? && h.value.at <= g.value.at then Count(h) else 0) + k] == g.value.added[k])
  }

  /**
   Every tool of the client stays, in order; the helpers stand together right before the client's tool
   at their position, and so does image_gen, after the helpers when the position is the same.
   */
  lemma ToolsKeepTheirPlaces(tools: seq<Tool>, h: Option<Addition>, g: Option<Addition>)
    requires Fits(h, tools) && Fits(g, tools)
    ensures InPlace(tools, h, g, Placed(tools, h, g, 0))
    ensures forall i, j :: 0 <= i < j < |tools| ==> Position(h, g, i) < Position(h, g, j)
  {
    hide Placed, InsertAll, InPlace;
    PlacedWhole(tools, h, g);
    if h.None? && g.None? {
      PlacedNothing(tools);
      NothingAdded(tools);
    } else if h.None? {
      GroupAdded(tools, g.value);
    } else if g.None? {
      HelpersAdded(tools, h.value);
    } else if h.value.at <= g.value.at {
      HelpersFirst(tools, h.value, g.value);
    } else {
      ImageFirst(tools, h.value, g.value);
    }
  }

  /** `x` before position a and `y` before position b of the client's list. */
  ghost predicate Spread(tools: seq<Tool>, a: nat, x: seq<Tool>, b: nat, y: seq<Tool>, r: seq<Tool>)
  {
    && |r| == |tools| + |x| + |y|
    && (forall i :: 0 <= i < |tools| ==> r[i + (if a <= i then |x| else 0) + (if b <= i then |y| else 0)] == tools[i])
    && (forall k :: 0 <= k < |x| && a <= |tools| ==> r[a + k] == x[k])
    && (forall k :: 0 <= k < |y| && b <= |tools| ==> r[b + |x| + k] == y[k])
  }

  lemma InsertedSpread(tools: seq<Tool>, a: nat, x: seq<Tool>, b: nat, y: seq<Tool>)
    requires a <= b <= |tools|
    ensures Spread(tools, a, x, b, y, InsertAll(InsertAll(tools, b, y), a, x))
  {
    var once := InsertAll(tools, b, y);
    var r := InsertAll(once, a, x);
    forall i | 0 <= i < |tools| ensures r[i + (if a <= i then |x| else 0) + (if b <= i then |y| else 0)] == tools[i] {
      assert once[i + (if b <= i then |y| else 0)] == tools[i];
    }
    forall k | 0 <= k < |y| ensures r[b + |x| + k] == y[k] {
      assert once[b + k] == y[k];
    }
  }

  lemma NothingAdded(tools: seq<Tool>)
    ensures InPlace(tools, None, None, tools)
  {
  }

  lemma HelpersAdded(tools: seq<Tool>, h: Addition)
    requires h.at <= |tools|
    ensures InPlace(tools, Some(h), None, InsertAll(tools, h.at, h.added))
  {
  }

  lemma GroupAdded(tools: seq<Tool>, g: Addition)
    requires g.at <= |tools|
    ensures InPlace(tools, None, Some(g), InsertAll(tools, g.at, g.added))
  {
  }

  lemma HelpersFirst(tools: seq<Tool>, h: Addition, g: Addition)
    requires h.at <= g.at <= |tools|
    ensures InPlace(tools, Some(h), Some(g), InsertAll(InsertAll(tools, g.at, g.added), h.at, h.added))
  {
    hide InsertAll;
    InsertedSpread(tools, h.at, h.added, g.at, g.added);
  }

  lemma ImageFirst(tools: seq<Tool>, h: Addition, g: Addition)
    requires g.at < h.at <= |tools|
    ensures InPlace(tools, Some(h), Some(g), InsertAll(InsertAll(tools, h.at, h.added), g.at, g.added))
  {
    hide InsertAll;
    InsertedSpread(tools, g.at, g.added, h.at, h.added);
  }

  lemma PlacedNothing(tools: seq<Tool>)
    ensures Placed(tools, None, None, 0) == tools
  {
    PlacedRest(tools, None, None, 0);
  }

  /** The additions are what the pool's own table says they are. */
  predicate FromTable(helpers: Option<seq<Tool>>, image: Option<Tool>)
  {
    && (helpers.Some? ==> helpers.value != [] && helpers.value[0].name in RESOURCE_TOOLS)
    && (image.Some? ==> image.value.name == IMAGE_GEN)
  }

  lemma SecondPassAddsNothing(tools: seq<Tool>, helpers: Option<seq<Tool>>, image: Option<Tool>)
    requires FromTable(helpers, image) && CompletedToolsSpec(tools, helpers, image).Some?
    ensures CompletedToolsSpec(CompletedToolsSpec(tools, helpers, image).value, helpers, image) == None
  {
    hide Placed, ShellCount, ExtensionsEnd, Position;
    var h, g := HelpersMissing(tools, helpers), ImageMissing(tools, image);
    var r := Placed(tools, h, g, 0);
    ToolsKeepTheirPlaces(tools, h, g);
    forall name | Offered(tools, name) ensures Offered(r, name) {
      var i :| 0 <= i < |tools| && tools[i].name == name;
      PositionInRange(tools, h, g, i);
      assert r[Position(h, g, i)].name == name;
    }
    if h.Some? {
      var at := h.value.at + (if g.Some? && g.value.at < h.value.at then Count(g) else 0) + 0;
      assert r[at] == h.value.added[0];
      assert Offered(r, helpers.value[0].name);
    }
    if g.Some? {
      var at := g.value.at + (if h.Some? && h.value.at <= g.value.at then Count(h) else 0) + 0;
      assert r[at] == g.value.added[0];
      assert Offered(r, IMAGE_GEN);
    }
  }

  lemma PositionInRange(tools: seq<Tool>, h: Option<Addition>, g: Option<Addition>, i: nat)
    requires i < |tools|
    ensures Position(h, g, i) < |tools| + Count(h) + Count(g)
  {
  }

  // ---- the tools as they are written ----

  /** What serde reads of one tool: its type and its name. */
  datatype Head = Head(kind: string, name: string)

  function ToolOf(text: string, head: string -> Head): Tool
  {
    Tool(head(text).kind, head(text).name, text)
  }

  function ToolsOf(texts: seq<string>, head: string -> Head): (r: seq<Tool>)
    ensures |r| == |texts| && forall i :: 0 <= i < |texts| ==> r[i] == ToolOf(texts[i], head)
  {
    seq(|texts|, i requires 0 <= i < |texts| => ToolOf(texts[i], head))
  }

  function Texts(tools: seq<Tool>): (r: seq<string>)
    ensures |r| == |tools| && forall i :: 0 <= i < |tools| ==> r[i] == tools[i].text
  {
    seq(|tools|, i requires 0 <= i < |tools| => tools[i].text)
  }

  /** The tools of an array, as far as serde reads them. */
  function ToolsIn(span: string, head: string -> Head): Option<seq<Tool>>
  {
    match ItemSpans(span)
    case Some(spans) => Some(ToolsOf(TextsAt(span, spans), head))
    case None => None
  }

  function CompletedToolsText(span: string, head: string -> Head, helpers: Option<seq<Tool>>, image: Option<Tool>): Option<string>
  {
    match ToolsIn(span, head)
    case None => None
    case Some(tools) =>
      match CompletedToolsSpec(tools, helpers, image)
      case Some(all) => Some("[" + Joined(Texts(all)) + "]")
      case None => None
  }

  /** `completed_tools`, from text to text. */
  method CompleteTools(span: string, head: string -> Head, helpers: Option<seq<Tool>>, image: Option<Tool>)
    returns (r: Option<string>)
    ensures r == CompletedToolsText(span, head, helpers, image)
  {
    hide ToolsIn, CompletedToolsSpec;
    var tools := ToolsIn(span, head);
    if tools.None? {
      return None;
    }
    var all := CompletedTools(tools.value, helpers, image);
    return if all.Some? then Some("[" + Joined(Texts(all.value)) + "]") else None;
  }

  /** The tool's text is that of one value, and reads as the tool. */
  predicate Reads(tool: Tool, head: string -> Head)
  {
    IsRaw(tool.text) && ToolOf(tool.text, head) == tool
  }

  predicate AdditionsRead(helpers: Option<seq<Tool>>, image: Option<Tool>, head: string -> Head)
  {
    && (helpers.Some? ==> forall tool :: tool in helpers.value ==> Reads(tool, head))
    && (image.Some? ==> Reads(image.value, head))
  }

  lemma ClientToolsRead(span: string, head: string -> Head)
    requires ToolsIn(span, head).Some?
    ensures forall tool :: tool in ToolsIn(span, head).value ==> Reads(tool, head)
  {
    hide ItemSpans, ReadDocument, IsRaw;
    ItemSpansOf(span);
  }

  lemma {:induction false} PlacedRead(tools: seq<Tool>, h: Option<Addition>, g: Option<Addition>, i: nat, head: string -> Head)
    requires i <= |tools| && forall tool :: tool in tools ==> Reads(tool, head)
    requires h.Some? ==> forall tool :: tool in h.value.added ==> Reads(tool, head)
    requires g.Some? ==> forall tool :: tool in g.value.added ==> Reads(tool, head)
    ensures forall tool :: tool in Placed(tools, h, g, i) ==> Reads(tool, head)
    decreases |tools| - i
  {
    hide Reads;
    if i < |tools| {
      PlacedRead(tools, h, g, i + 1, head);
    }
  }

  lemma ReadBack(tools: seq<Tool>, head: string -> Head)
    requires forall tool :: tool in tools ==> Reads(tool, head)
    ensures ToolsIn("[" + Joined(Texts(tools)) + "]", head) == Some(tools)
  {
    hide ItemSpans, Joined, IsRaw;
    forall x | x in Texts(tools) ensures IsRaw(x) {
      var i :| 0 <= i < |tools| && Texts(tools)[i] == x;
      assert Reads(tools[i], head);
    }
    JoinedHolds(Texts(tools));
    assert forall i :: 0 <= i < |tools| ==> Reads(tools[i], head);
    assert ToolsOf(Texts(tools), head) == tools;
  }

  /**
   What is written for a tools array reads as the completed list, every tool with its own text, and a
   second pass over that text changes nothing.
   */
  lemma CompletedToolsReadBack(span: string, head: string -> Head, helpers: Option<seq<Tool>>, image: Option<Tool>)
    requires FromTable(helpers, image) && AdditionsRead(helpers, image, head)
    requires CompletedToolsText(span, head, helpers, image).Some?
    ensures var text := CompletedToolsText(span, head, helpers, image).value;
      && ToolsIn(text, head) == CompletedToolsSpec(ToolsIn(span, head).value, helpers, image)
      && CompletedToolsText(text, head, helpers, image) == None
  {
    hide ToolsIn, Reads, FromTable, Joined;
    var tools := ToolsIn(span, head).value;
    var h, g := HelpersMissing(tools, helpers), ImageMissing(tools, image);
    ClientToolsRead(span, head);
    PlacedRead(tools, h, g, 0, head);
    ReadBack(Placed(tools, h, g, 0), head);
    SecondPassAddsNothing(tools, helpers, image);
  }

  // ---- client_metadata ----

  const GUARDIAN := "guardian_credits_requested"
  const GUARDIAN_MEMBER := "\"" + GUARDIAN + "\":\"true\""

  /** `with_guardian_credits`: the member first, the client's own text after it. */
  function WithGuardianCredits(span: string): Option<string>
  {
    match ReadDocument(span)
    case Some(Obj(metadata)) =>
      if GUARDIAN in metadata || span == "" || span[0] != '{' then None
      else Some("{" + GUARDIAN_MEMBER + (if metadata == map[] then "" else ",") + span[1..])
    case _ => None
  }

  /** Members read after others are added to them. */
  lemma {:induction false} MembersReadAfter(s: string, before: map<string, JSON>)
    ensures ReadMembers(s, before) == match ReadMembers(s, map[])
      case Failed => Failed
      case Got(members, rest) => Got(before + members, rest)
    decreases |s|
  {
    hide ReadValue, ReadChars;
    var t := SkipSpace(s);
    if t != [] && t[0] == '\"' && ReadChars(t[1..]).Got? {
      var name, rest := ReadChars(t[1..]).value, ReadChars(t[1..]).rest;
      var colon := SkipSpace(rest);
      if colon != [] && colon[0] == ':' && ReadValue(colon[1..]).Got? {
        var value, end := ReadValue(colon[1..]).value, ReadValue(colon[1..]).rest;
        var u := SkipSpace(end);
        assert before[name := value] == before + map[][name := value];
        if u != [] && u[0] == ',' {
          MembersReadAfter(u[1..], before[name := value]);
          MembersReadAfter(u[1..], map[][name := value]);
          if ReadMembers(u[1..], map[]).Got? {
            var more := ReadMembers(u[1..], map[]).value;
            assert before[name := value] + more == before + (map[][name := value] + more);
          }
        }
      }
    }
  }

  lemma GuardianMemberReads(end: string)
    requires SkipSpace(end) != [] && (SkipSpace(end)[0] == ',' || SkipSpace(end)[0] == '}')
    ensures ReadMembers(GUARDIAN_MEMBER + end, map[]) ==
      var t := SkipSpace(end);
      if t[0] == '}' then Got(map[GUARDIAN := Str("true")], t[1..])
      else ReadMembers(t[1..], map[GUARDIAN := Str("true")])
  {
    hide StringText, ReadMembers, SkipSpace;
    GuardianText();
    MemberReads(GUARDIAN_MEMBER, GUARDIAN, end);
  }

  lemma MemberReads(member: string, name: string, end: string)
    requires member == StringText(name, false) + (":" + StringText("true", false))
    requires SkipSpace(end) != [] && (SkipSpace(end)[0] == ',' || SkipSpace(end)[0] == '}')
    ensures ReadMembers(member + end, map[]) ==
      var t := SkipSpace(end);
      if t[0] == '}' then Got(map[name := Str("true")], t[1..])
      else ReadMembers(t[1..], map[name := Str("true")])
  {
    hide StringText, ReadMembers, SkipSpace, ReadValue, ReadChars;
    var value := StringText("true", false);
    ReadQuoted("true", false, end);
    ReadString(name, false, ":" + (value + end));
    assert member + end == StringText(name, false) + (":" + (value + end));
    FirstMemberReads(name, member + end, value, end);
  }

  lemma FirstMemberReads(name: string, s: string, value: string, end: string)
    requires s != [] && s[0] == '\"' && ReadChars(s[1..]) == Got(name, ":" + (value + end))
    requires ReadValue(value + end) == Got(Str("true"), end)
    requires SkipSpace(end) != [] && (SkipSpace(end)[0] == ',' || SkipSpace(end)[0] == '}')
    ensures ReadMembers(s, map[]) ==
      var t := SkipSpace(end);
      if t[0] == '}' then Got(map[name := Str("true")], t[1..])
      else ReadMembers(t[1..], map[name := Str("true")])
  {
    hide ReadValue, ReadChars;
    var colon := ":" + (value + end);
    assert SkipSpace(s) == s && SkipSpace(colon) == colon && colon[1..] == value + end;
    assert map[][name := Str("true")] == map[name := Str("true")];
  }

  lemma GuardianText()
    ensures GUARDIAN_MEMBER == StringText(GUARDIAN, false) + (":" + StringText("true", false))
  {
    hide StringText;
    GuardianPlain();
    PlainMember(GUARDIAN);
  }

  lemma PlainMember(name: string)
    requires forall i :: 0 <= i < |name| ==> 'a' <= name[i] <= 'z' || name[i] == '_'
    ensures "\"" + name + "\":\"true\"" == StringText(name, false) + (":" + StringText("true", false))
  {
    hide StringText, Escape;
    PlainText(name);
    PlainText("true");
  }

  lemma GuardianPlain()
    ensures forall i :: 0 <= i < |GUARDIAN| ==> 'a' <= GUARDIAN[i] <= 'z' || GUARDIAN[i] == '_'
  {
  }

  lemma {:induction false} PlainText(s: string)
    requires forall i :: 0 <= i < |s| ==> 'a' <= s[i] <= 'z' || s[i] == '_'
    ensures Escape(s, false) == s && StringText(s, false) == "\"" + s + "\""
  {
    if s != [] {
      PlainText(s[1..]);
      assert EscapeChar(s[0], false) == [s[0]];
      assert s == [s[0]] + s[1..];
    }
  }

  /** The completed metadata reads as the client's with one member more, and a second pass adds nothing. */
  lemma GuardianCreditsOnce(span: string)
    requires WithGuardianCredits(span).Some?
    ensures var metadata := ReadDocument(span).value.members;
      ReadDocument(WithGuardianCredits(span).value) == Some(Obj(metadata[GUARDIAN := Str("true")]))
    ensures WithGuardianCredits(WithGuardianCredits(span).value) == None
  {
    hide ReadMembers, ReadChars;
    var metadata := ReadDocument(span).value.members;
    var text := WithGuardianCredits(span).value;
    var rest := span[1..];
    assert SkipSpace(span) == span;
    var t := SkipSpace(rest);
    var end := (if metadata == map[] then "" else ",") + rest;
    assert text == "{" + (GUARDIAN_MEMBER + end);
    assert text[1..] == GUARDIAN_MEMBER + end && SkipSpace(text) == text;
    assert SkipSpace(GUARDIAN_MEMBER + end) == GUARDIAN_MEMBER + end && (GUARDIAN_MEMBER + end)[0] == '\"';
    if t != [] && t[0] == '}' {
      assert metadata == map[];
      assert end == rest;
      GuardianMemberReads(end);
      assert map[][GUARDIAN := Str("true")] == map[GUARDIAN := Str("true")];
    } else {
      MembersNotEmpty(rest);
      assert end == "," + rest && SkipSpace(end) == end && end[1..] == rest;
      GuardianMemberReads(end);
      MembersReadAfter(rest, map[GUARDIAN := Str("true")]);
      assert map[GUARDIAN := Str("true")] + metadata == metadata[GUARDIAN := Str("true")];
    }
  }

  lemma MembersNotEmpty(s: string)
    ensures ReadMembers(s, map[]).Got? ==> ReadMembers(s, map[]).value != map[]
  {
    hide ReadValue, ReadChars;
    var t := SkipSpace(s);
    if t != [] && t[0] == '\"' && ReadChars(t[1..]).Got? {
      var name, colon := ReadChars(t[1..]).value, SkipSpace(ReadChars(t[1..]).rest);
      if colon != [] && colon[0] == ':' && ReadValue(colon[1..]).Got? {
        var u := SkipSpace(ReadValue(colon[1..]).rest);
        var members := map[][name := ReadValue(colon[1..]).value];
        assert name in members;
        if u != [] && u[0] == ',' {
          MembersReadAfter(u[1..], members);
        }
      }
    }
  }

  // ---- the call log ----

  const CALL_LOG_LIMIT: nat := 4096

  datatype Call = Call(tool: string, arguments: string)

  /**
   The calls seen on a socket, oldest first. `pushed` is every id that ever entered the log, in the
   order of entering, and `latest` the call remembered last under each id ever seen.
   */
  class CallLog {
    var order: seq<string>
    var calls: map<string, Call>
    ghost var pushed: seq<string>
    ghost var latest: map<string, Call>

    ghost predicate Valid()
      reads this
    {
      Follows(order, calls, pushed, latest)
    }

    constructor ()
      ensures Valid() && pushed == [] && latest == map[]
    {
      order, calls := [], map[];
      pushed, latest := [], map[];
    }

    method Remember(id: string, call: Call)
      requires Valid()
      modifies this
      ensures Valid()
      ensures (order, calls) == Remembered(old(order), old(calls), id, call)
      ensures pushed == if id in LastOf(old(pushed), CALL_LOG_LIMIT) then old(pushed) else old(pushed) + [id]
      ensures latest == old(latest)[id := call]
    {
      LogSize(order, calls);
      hide Follows, LogOk;
      var known := id in calls;
      calls := calls[id := call];
      if !known {
        order := order + [id];
      }
      while |order| > CALL_LOG_LIMIT
        invariant (order, calls) == RememberedUpTo(old(order), old(calls), id, call, |order|)
        invariant |order| <= CALL_LOG_LIMIT + 1 && pushed == old(pushed) && latest == old(latest)
        invariant |order| == old(|order|) + (if known then 0 else 1) || |order| == CALL_LOG_LIMIT
      {
        var oldest := order[0];
        order := order[1..];
        calls := calls - {oldest};
      }
      RememberedFollows(old(order), old(calls), pushed, latest, id, call);
      pushed := if known then pushed else pushed + [id];
      latest := latest[id := call];
    }

    /** A call is recalled exactly while its id is among the last 4096 that entered, as it was remembered last. */
    method Recall(id: string) returns (call: Option<Call>)
      requires Valid()
      ensures call.Some? <==> id in LastOf(pushed, CALL_LOG_LIMIT)
      ensures call.Some? ==> id in latest && call.value == latest[id]
    {
      return if id in calls then Some(calls[id]) else None;
    }
  }

  /** The last n elements, or all if there are fewer. */
  function LastOf<T>(s: seq<T>, n: nat): seq<T>
  {
    if |s| <= n then s else s[|s| - n..]
  }

  /** The log holds what entered last, each id with its latest call. */
  ghost predicate Follows(order: seq<string>, calls: map<string, Call>, pushed: seq<string>, latest: map<string, Call>)
  {
    && LogOk(order, calls)
    && order == LastOf(pushed, CALL_LOG_LIMIT)
    && forall id :: id in calls ==> id in latest && calls[id] == latest[id]
  }

  lemma RememberedFollows(order: seq<string>, calls: map<string, Call>, pushed: seq<string>, latest: map<string, Call>,
                          id: string, call: Call)
    requires Follows(order, calls, pushed, latest)
    ensures id in calls <==> id in LastOf(pushed, CALL_LOG_LIMIT)
    ensures var (o, c) := Remembered(order, calls, id, call);
      Follows(o, c, if id in calls then pushed else pushed + [id], latest[id := call])
  {
    hide LastOf, LogOk;
    InLog(order, calls, id);
    RememberedOk(order, calls, id, call);
    LastPushed(pushed, id);
  }

  lemma InLog(order: seq<string>, calls: map<string, Call>, id: string)
    requires LogOk(order, calls)
    ensures id in calls <==> id in order
    ensures |order| <= CALL_LOG_LIMIT
  {
  }

  lemma LastPushed(pushed: seq<string>, id: string)
    ensures var longer := LastOf(pushed, CALL_LOG_LIMIT) + [id];
      LastOf(pushed + [id], CALL_LOG_LIMIT) == if |longer| > CALL_LOG_LIMIT then longer[1..] else longer
  {
  }

  ghost predicate LogOk(order: seq<string>, calls: map<string, Call>)
  {
    && Distinct(order) && |order| <= CALL_LOG_LIMIT
    && forall id :: id in order <==> id in calls
  }

  lemma LogSize(order: seq<string>, calls: map<string, Call>)
    requires LogOk(order, calls)
    ensures |order| <= CALL_LOG_LIMIT
  {
  }

  function RememberedUpTo(order: seq<string>, calls: map<string, Call>, id: string, call: Call, size: nat): (seq<string>, map<string, Call>)
  {
    var longer := if id in calls then order else order + [id];
    var more := calls[id := call];
    if size < |longer| then (longer[1..], more - {longer[0]}) else (longer, more)
  }

  /** One call more; a new one pushes the oldest out of a full log. */
  function Remembered(order: seq<string>, calls: map<string, Call>, id: string, call: Call): (seq<string>, map<string, Call>)
  {
    RememberedUpTo(order, calls, id, call, CALL_LOG_LIMIT)
  }

  lemma RememberedOk(order: seq<string>, calls: map<string, Call>, id: string, call: Call)
    requires LogOk(order, calls)
    ensures var (o, c) := Remembered(order, calls, id, call); LogOk(o, c) && id in c && c[id] == call
  {
    if id !in calls {
      var longer := order + [id];
      assert forall i :: 0 <= i < |order| ==> longer[i] == order[i];
      assert forall x :: x in longer <==> x in order || x == id;
      if |longer| > CALL_LOG_LIMIT {
        OldestGone(longer, calls[id := call]);
      }
    }
  }

  lemma OldestGone(order: seq<string>, calls: map<string, Call>)
    requires Distinct(order) && order != [] && forall x :: x in order <==> x in calls
    ensures Distinct(order[1..]) && forall x :: x in order[1..] <==> x in calls - {order[0]}
  {
    forall x ensures x in order[1..] <==> x in order && x != order[0] {
      assert forall i :: 0 < i < |order| ==> order[i] == order[1..][i - 1];
    }
  }

  function RememberAll(order: seq<string>, calls: map<string, Call>, es: seq<(string, Call)>): (seq<string>, map<string, Call>)
  {
    if es == [] then (order, calls)
    else
      var (o, c) := RememberAll(order, calls, es[..|es| - 1]);
      Remembered(o, c, es[|es| - 1].0, es[|es| - 1].1)
  }

  /** What a call id stands for after `es`, when it stood for `call` before. */
  function LastCall(es: seq<(string, Call)>, id: string, call: Call): Call
  {
    if es == [] then call
    else if es[|es| - 1].0 == id then es[|es| - 1].1
    else LastCall(es[..|es| - 1], id, call)
  }

  /**
   A call stays in the log, with the arguments seen last, while no more calls are recorded after it
   than the log has room for and than are older than it.
   */
  lemma {:induction false} RecallsRecent(order: seq<string>, calls: map<string, Call>, p: nat, es: seq<(string, Call)>)
    requires LogOk(order, calls) && p < |order| && |es| <= p + (CALL_LOG_LIMIT - |order|)
    ensures var (o, c) := RememberAll(order, calls, es);
      && LogOk(o, c) && order[p] in c && c[order[p]] == LastCall(es, order[p], calls[order[p]])
      && |o| <= |order| + |es|
      && exists q :: 0 <= q < |o| && o[q] == order[p] && p + (CALL_LOG_LIMIT - |order|) - |es| <= q + (CALL_LOG_LIMIT - |o|)
  {
    if es == [] {
      assert order[p] in order;
    } else {
      var init, e := es[..|es| - 1], es[|es| - 1];
      RecallsRecent(order, calls, p, init);
      var (o, c) := RememberAll(order, calls, init);
      var q :| 0 <= q < |o| && o[q] == order[p] && p + (CALL_LOG_LIMIT - |order|) - |init| <= q + (CALL_LOG_LIMIT - |o|);
      RememberedOk(o, c, e.0, e.1);
      var (o2, c2) := Remembered(o, c, e.0, e.1);
      assert (o2, c2) == RememberAll(order, calls, es);
      if |o2| == |o| && o2 != o {
        assert o2 == (o + [e.0])[1..];
        assert q > 0 && o2[q - 1] == o[q];
        assert c2[order[p]] == (if e.0 == order[p] then e.1 else c[order[p]]);
      } else {
        assert o2[q] == o[q];
      }
    }
  }
}
