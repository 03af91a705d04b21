/**
 The check and the normalization as the pool runs them: loops that push onto one list of unknown
 names and stop at the first refusal, and edits of one copy of the payload.
 */
module RequestCheck {
  import opened Basics
  import opened Json
  import opened CodexPrinter
  import opened RequestGate

  class Names {
    var list: seq<string>

    constructor ()
      ensures list == []
    {
      list := [];
    }

    method Push(name: string)
      modifies this
      ensures list == old(list) + [name]
    {
      list := list + [name];
    }
  }

  /** A check that pushed names onto a list and returned a refusal did what `c` says. */
  predicate Reports(c: Checked, before: seq<string>, after: seq<string>, refused: Option<Param>)
  {
    match c
    case Passed(names) => refused.None? && after == before + names
    case Refused(param) => refused == Some(param)
  }

  /** One more check in a loop over `cs`: go on, or stop with the refusal of the whole. */
  lemma Next(cs: seq<Checked>, i: nat, start: seq<string>, before: seq<string>, after: seq<string>, refused: Option<Param>)
    requires i < |cs|
    requires Reports(All(cs[..i]), start, before, None)
    requires Reports(cs[i], before, after, refused)
    ensures refused.None? ==> Reports(All(cs[..i + 1]), start, after, None)
    ensures refused.Some? ==> Reports(All(cs), start, after, refused)
  {
    hide All;
    AllStep(cs, i);
    if cs[i].Passed? {
      assert start + (All(cs[..i]).unknown + cs[i].unknown) == (start + All(cs[..i]).unknown) + cs[i].unknown;
    }
  }

  lemma Whole(cs: seq<Checked>)
    ensures cs[..|cs|] == cs && cs[..0] == [] && All(cs[..0]) == Passed([])
  {
  }

  method CheckContentParts(index: nat, parts: seq<JSON>, native: bool, unknown: Names) returns (refused: Option<Param>)
    modifies unknown
    ensures Reports(CheckParts(index, parts, native), old(unknown.list), unknown.list, refused)
  {
    hide All, CheckPart;
    ghost var cs, start := PartChecks(index, parts, native), unknown.list;
    Whole(cs);
    for i := 0 to |parts|
      invariant Reports(All(cs[..i]), start, unknown.list, None)
    {
      ghost var before := unknown.list;
      refused := CheckContentPart(index, parts[i], native, unknown);
      Next(cs, i, start, before, unknown.list, refused);
      if refused.Some? {
        return;
      }
    }
    return None;
  }

  method CheckContentPart(index: nat, part: JSON, native: bool, unknown: Names) returns (refused: Option<Param>)
    modifies unknown
    ensures Reports(CheckPart(index, part, native), old(unknown.list), unknown.list, refused)
  {
    var kind := TypeOf(part);
    if kind in CODEX_CONTENT_TYPES || (!native && (kind == "text" || kind == "image_url")) {
      return None;
    }
    if kind == "input_file" {
      return Some(ItemFile(index));
    }
    unknown.Push("content: " + kind);
    return None;
  }

  method CheckOneItem(index: nat, item: JSON, native: bool, unknown: Names) returns (refused: Option<Param>)
    modifies unknown
    ensures Reports(CheckItem(index, item, native), old(unknown.list), unknown.list, refused)
  {
    hide CheckParts;
    if !item.Obj? {
      return Some(Item(index));
    }
    var kind;
    match GetStr(item, "type") {
      case Some(named) => kind := named;
      case None =>
        if "role" !in item.members || native {
          return Some(ItemType(index));
        }
        kind := "message";
    }
    if kind in REFUSED_ITEM_TYPES {
      return Some(ItemKind(index, kind));
    }
    if kind !in CODEX_ITEM_TYPES {
      unknown.Push("input: " + kind);
      return None;
    }
    if kind != "message" {
      return None;
    }
    if native && GetStr(item, "role") == Some("system") {
      return Some(ItemRole(index));
    }
    match Get(item, "content") {
      case Some(Str(_)) =>
        if native {
          return Some(ItemContent(index));
        }
        return None;
      case Some(Arr(parts)) =>
        refused := CheckContentParts(index, parts, native, unknown);
      case _ =>
        return None;
    }
  }

  method CheckEveryItem(items: seq<JSON>, native: bool, unknown: Names) returns (refused: Option<Param>)
    modifies unknown
    ensures Reports(CheckItems(items, native), old(unknown.list), unknown.list, refused)
  {
    hide All, CheckItem;
    ghost var cs, start := ItemChecks(items, native), unknown.list;
    Whole(cs);
    for i := 0 to |items|
      invariant Reports(All(cs[..i]), start, unknown.list, None)
    {
      ghost var before := unknown.list;
      refused := CheckOneItem(i, items[i], native, unknown);
      Next(cs, i, start, before, unknown.list, refused);
      if refused.Some? {
        return;
      }
    }
    return None;
  }

  method CheckEveryTool(tools: seq<JSON>, native: bool, unknown: Names) returns (refused: Option<Param>)
    modifies unknown
    ensures Reports(CheckTools(tools, native), old(unknown.list), unknown.list, refused)
  {
    hide All, CheckTool;
    ghost var cs, start := ToolChecks(tools, native), unknown.list;
    Whole(cs);
    for i := 0 to |tools|
      invariant Reports(All(cs[..i]), start, unknown.list, None)
    {
      ghost var before := unknown.list;
      refused := CheckOneTool(tools[i], native, unknown);
      Next(cs, i, start, before, unknown.list, refused);
      if refused.Some? {
        return;
      }
    }
    return None;
  }

  method CheckOneTool(tool: JSON, native: bool, unknown: Names) returns (refused: Option<Param>)
    modifies unknown
    ensures Reports(CheckTool(tool, native), old(unknown.list), unknown.list, refused)
  {
    var kind := TypeOf(tool);
    if kind in CODEX_TOOL_TYPES || (kind in WEB_SEARCH_PREVIEW_TYPES && !native) {
      return None;
    }
    if kind in REFUSED_TOOL_TYPES || kind in WEB_SEARCH_PREVIEW_TYPES {
      return Some(ToolKind(kind));
    }
    unknown.Push("tools: " + kind);
    return None;
  }

  method CheckEveryInclude(values: seq<JSON>) returns (refused: Option<Param>)
    ensures Reports(CheckIncludes(values), [], [], refused)
  {
    hide All;
    ghost var cs := IncludeChecks(values);
    Whole(cs);
    for i := 0 to |values|
      invariant Reports(All(cs[..i]), [], [], None)
    {
      var name := if values[i].Str? then values[i].s else "";
      refused := if name in CODEX_INCLUDES then None else Some(Include(name));
      Next(cs, i, [], [], [], refused);
      if refused.Some? {
        return;
      }
    }
    return None;
  }

  method CheckEveryOption(names: seq<string>, native: bool, unknown: Names) returns (refused: Option<Param>)
    modifies unknown
    ensures Reports(CheckOptions(names, native), old(unknown.list), unknown.list, refused)
  {
    hide All;
    ghost var cs, start := OptionChecks(names, native), unknown.list;
    Whole(cs);
    for i := 0 to |names|
      invariant Reports(All(cs[..i]), start, unknown.list, None)
    {
      ghost var before := unknown.list;
      refused := None;
      if names[i] == "reasoning_summary_delivery" {
      } else if names[i] == "include_usage" || names[i] == "include_obfuscation" {
        refused := if native then Some(StreamOption(names[i])) else None;
      } else {
        unknown.Push("stream_options." + names[i]);
      }
      Next(cs, i, start, before, unknown.list, refused);
      if refused.Some? {
        return;
      }
    }
    return None;
  }

  method CheckOneField(key: string, value: JSON, native: bool, unknown: Names) returns (refused: Option<Param>)
    modifies unknown
    ensures Reports(CheckField(key, value, native), old(unknown.list), unknown.list, refused)
  {
    hide CheckItems, CheckTools, CheckIncludes, CheckOptions, Sorted;
    if key == "stream" && native && value != Bool(true) {
      return Some(Field(key));
    }
    if key == "store" && native && value != Bool(false) {
      return Some(Field(key));
    }
    if key == "tool_choice" && value != Str("auto") {
      return Some(Field(key));
    }
    refused := None;
    if key == "include" {
      if !value.Arr? {
        return Some(Field(key));
      }
      refused := CheckEveryInclude(value.items);
      IncludesAddNothing(value.items);
    } else if key == "input" {
      match value {
        case Str(_) =>
          refused := if native then Some(Field(key)) else None;
        case Arr(items) =>
          refused := CheckEveryItem(items, native, unknown);
        case _ =>
          refused := Some(Field(key));
      }
    } else if key == "tools" {
      if !value.Arr? {
        return Some(Field(key));
      }
      refused := CheckEveryTool(value.items, native, unknown);
    } else if key == "text" {
      match FormatType(value) {
        case None =>
        case Some(format) =>
          if format == "json_schema" || (format == "text" && !native) {
          } else if format == "json_object" || format == "text" {
            refused := Some(TextFormat);
          } else {
            unknown.Push("text.format: " + format);
          }
      }
    } else if key == "stream_options" && value.Obj? {
      refused := CheckEveryOption(Sorted(value.members.Keys), native, unknown);
    }
  }

  lemma {:induction false} IncludesAddNothing(values: seq<JSON>)
    ensures CheckIncludes(values).Passed? ==> CheckIncludes(values).unknown == []
  {
    AllAddNothing(IncludeChecks(values));
  }

  lemma {:induction false} AllAddNothing(cs: seq<Checked>)
    requires forall i :: 0 <= i < |cs| ==> cs[i].Refused? || cs[i] == Passed([])
    ensures All(cs).Refused? || All(cs) == Passed([])
  {
    if cs != [] {
      AllAddNothing(cs[..|cs| - 1]);
    }
  }

  method CheckOneKey(key: string, value: JSON, entry: Entry, body: Body, unknown: Names) returns (refused: Option<Param>)
    modifies unknown
    ensures Reports(CheckKey(key, value, entry, body), old(unknown.list), unknown.list, refused)
  {
    hide CheckField;
    refused := None;
    if body == WebSocket && key in WEBSOCKET_FIELDS {
      return;
    }
    if key in REFUSED_FIELDS {
      return Some(Field(key));
    }
    if key in IDENTITY_FIELDS {
      if entry == Native {
        return Some(Field(key));
      }
      return;
    }
    if key !in CODEX_FIELDS {
      unknown.Push(key);
      return;
    }
    refused := CheckOneField(key, value, entry == Native, unknown);
  }

  method CheckRequired(payload: map<string, JSON>, newer: bool, unknown: Names) returns (refused: Option<Param>)
    modifies unknown
    ensures Reports(All(PresentChecks(payload, REQUIRED_FIELDS, newer)), old(unknown.list), unknown.list, refused)
  {
    hide All;
    ghost var cs, start := PresentChecks(payload, REQUIRED_FIELDS, newer), unknown.list;
    Whole(cs);
    for i := 0 to |REQUIRED_FIELDS|
      invariant Reports(All(cs[..i]), start, unknown.list, None)
    {
      var field := REQUIRED_FIELDS[i];
      ghost var before := unknown.list;
      refused := None;
      if field !in payload {
        if newer {
          unknown.Push("missing " + field);
        } else {
          refused := Some(Field(field));
        }
      }
      Next(cs, i, start, before, unknown.list, refused);
      if refused.Some? {
        return;
      }
    }
    return None;
  }

  /** `check_responses`: the names never seen before, or the first refusal. */
  method CheckRequest(payload: map<string, JSON>, entry: Entry, body: Body, newer: bool) returns (r: Checked)
    ensures r == CheckResponses(payload, entry, body, newer)
  {
    hide All, CheckKey, Sorted;
    var unknown := new Names();
    SortedKeys(payload.Keys);
    var keys := Sorted(payload.Keys);
    ghost var cs := KeyChecks(payload, keys, entry, body);
    Whole(cs);
    for i := 0 to |keys|
      invariant Reports(All(cs[..i]), [], unknown.list, None)
    {
      ghost var before := unknown.list;
      var refused := CheckOneKey(keys[i], payload[keys[i]], entry, body, unknown);
      Next(cs, i, [], before, unknown.list, refused);
      if refused.Some? {
        return Refused(refused.value);
      }
    }
    if entry == Native && body != Compact {
      var refused := CheckRequired(payload, newer, unknown);
      if refused.Some? {
        return Refused(refused.value);
      }
    }
    return Passed(unknown.list);
  }

  // ---- normalization ----

  method RewriteTools(tools: seq<JSON>) returns (r: seq<JSON>)
    ensures r == NormalizeTools(tools)
  {
    hide NormalizeTool;
    r := tools;
    for i := 0 to |tools|
      invariant |r| == |tools|
      invariant forall k :: 0 <= k < i ==> r[k] == NormalizeTool(tools[k])
      invariant forall k :: i <= k < |tools| ==> r[k] == tools[k]
    {
      var tool := RewriteTool(r[i]);
      r := r[i := tool];
    }
  }

  method RewriteTool(tool: JSON) returns (r: JSON)
    ensures r == NormalizeTool(tool)
  {
    if !tool.Obj? {
      return tool;
    }
    var m := tool.members;
    match GetStr(tool, "type") {
      case Some(kind) =>
        if kind in WEB_SEARCH_PREVIEW_TYPES {
          m := m["type" := Str("web_search")];
        } else if kind == "function" {
          if "description" !in m {
            m := m["description" := Str("")];
          }
          if "strict" !in m {
            m := m["strict" := Bool(false)];
          }
        }
      case None =>
    }
    return Obj(m);
  }

  method RewriteItem(item: JSON) returns (r: JSON)
    ensures r == NormalizeItem(item)
  {
    if !item.Obj? {
      return item;
    }
    var m := item.members;
    if "type" !in m && "role" in m {
      m := m["type" := Str("message")];
    }
    if GetStr(Obj(m), "type") != Some("message") {
      return Obj(m);
    }
    assert Get(Obj(m), "role") == Get(item, "role") && Get(Obj(m), "content") == Get(item, "content");
    var role := "developer";
    match GetStr(Obj(m), "role") {
      case Some(named) =>
        if named != "system" {
          role := named;
        }
      case None =>
    }
    ghost var typed := m;
    m := m["role" := Str(role)];
    var content := RewriteContent(role, Get(Obj(m), "content"));
    m := m - {"content"};
    m := m["content" := Arr(content)];
    assert m == typed["role" := Str(role)]["content" := Arr(content)];
    return Obj(m);
  }

  method RewriteContent(role: string, content: Option<JSON>) returns (r: seq<JSON>)
    ensures r == NormalizeContent(role, content)
  {
    hide NormalizePart, TextPart;
    match content {
      case Some(Str(text)) =>
        r := [TextPart(role, text)];
      case Some(Arr(parts)) =>
        r := [];
        for i := 0 to |parts|
          invariant |r| == i && forall k :: 0 <= k < i ==> r[k] == NormalizePart(role, parts[k])
        {
          r := r + [NormalizePart(role, parts[i])];
        }
      case Some(other) =>
        r := [other];
      case None =>
        r := [];
    }
  }

  method RemoveIdentity(payload: map<string, JSON>) returns (rest: map<string, JSON>, removed: seq<string>)
    ensures rest == payload - Set(IDENTITY_FIELDS)
    ensures removed == RemovedFields(payload)
  {
    hide Listed, Set;
    rest := payload;
    removed := [];
    StillThere(0);
    ListedGrows(IDENTITY_FIELDS, 0, payload.Keys);
    for i := 0 to |IDENTITY_FIELDS|
      invariant rest == payload - Set(IDENTITY_FIELDS[..i])
      invariant removed == Listed(IDENTITY_FIELDS[..i], payload.Keys)
    {
      var field := IDENTITY_FIELDS[i];
      ListedGrows(IDENTITY_FIELDS, i, payload.Keys);
      StillThere(i);
      if field in rest {
        rest := rest - {field};
        removed := removed + [field];
      }
    }
    assert IDENTITY_FIELDS[..|IDENTITY_FIELDS|] == IDENTITY_FIELDS;
  }

  method RewriteInput(input: Option<JSON>) returns (items: seq<JSON>)
    ensures forall payload :: Get(Obj(payload), "input") == input ==> items == InputItems(payload)
  {
    hide NormalizeItem, Message, TextPart;
    items := [];
    match input {
      case Some(Str(text)) =>
        items := [Message("user", [TextPart("user", text)])];
      case Some(Arr(given)) =>
        for i := 0 to |given|
          invariant |items| == i && forall k :: 0 <= k < i ==> items[k] == NormalizeItem(given[k])
        {
          var item := RewriteItem(given[i]);
          items := items + [item];
        }
        assert items == NormalizeItems(given);
      case _ =>
    }
  }

  /** `normalize`: one copy of the payload, edited step by step. */
  method NormalizeRequest(payload: map<string, JSON>) returns (n: Normalized)
    ensures n == Normalize(payload)
  {
    hide InputItems, RemovedFields, Edit, EditMember, Set;
    var rest, removed := RemoveIdentity(payload);
    rest := rest - {"client_metadata"} - {"prompt_cache_key"};
    UnreadYet(payload, rest);
    var instructions := Instructions(rest);
    rest := rest - {"instructions"};
    var items := RewriteInput(Get(Obj(rest), "input"));
    assert Get(Obj(rest), "input") == Get(Obj(payload), "input");
    rest := rest - {"input"};
    var edited := EditPayload(rest);
    KeptMembers(payload, rest, edited);
    n := Normalized(edited, instructions, items, removed);
  }

  function Set(s: seq<string>): set<string>
  {
    set k | k in s
  }

  lemma StillThere(i: nat)
    requires i < |IDENTITY_FIELDS|
    ensures IDENTITY_FIELDS[i] !in IDENTITY_FIELDS[..i] && Set(IDENTITY_FIELDS[..0]) == {}
    ensures forall k :: k in Set(IDENTITY_FIELDS[..i]) <==> k in IDENTITY_FIELDS[..i]
    ensures Set(IDENTITY_FIELDS[..i + 1]) == Set(IDENTITY_FIELDS[..i]) + {IDENTITY_FIELDS[i]}
  {
    assert IDENTITY_FIELDS[..i + 1] == IDENTITY_FIELDS[..i] + [IDENTITY_FIELDS[i]];
  }

  lemma UnreadYet(payload: map<string, JSON>, rest: map<string, JSON>)
    requires rest == payload - Set(IDENTITY_FIELDS) - {"client_metadata"} - {"prompt_cache_key"}
    ensures Get(Obj(rest), "input") == Get(Obj(payload), "input") && Instructions(rest) == Instructions(payload)
  {
    assert "input" !in IDENTITY_FIELDS && "instructions" !in IDENTITY_FIELDS;
    assert Get(Obj(rest), "instructions") == Get(Obj(payload), "instructions");
  }

  function EditNamed(key: string, v: JSON): Option<JSON>
  {
    if key == "tools" then EditTools(v)
    else if key == "text" then EditText(v)
    else if key == "stream_options" then EditStreamOptions(v)
    else if key == "service_tier" then EditServiceTier(v)
    else Some(v)
  }

  /** One member rewritten or taken out. */
  function Edit(m: map<string, JSON>, key: string): map<string, JSON>
  {
    if key !in m then m
    else
      match EditNamed(key, m[key])
      case Some(v) => m[key := v]
      case None => m - {key}
  }

  method EditPayload(rest: map<string, JSON>) returns (edited: map<string, JSON>)
    ensures edited == Edit(Edit(Edit(Edit(rest, "tools"), "text"), "stream_options"), "service_tier")
  {
    edited := EditTheTools(rest);
    edited := EditTheText(edited);
    edited := EditTheOptions(edited);
    if "service_tier" in edited && (edited["service_tier"] == Str("auto") || edited["service_tier"] == Str("default")) {
      edited := edited - {"service_tier"};
    }
    hide EditTools, EditText, EditStreamOptions;
    ghost var before := Edit(Edit(Edit(rest, "tools"), "text"), "stream_options");
    assert edited == Edit(before, "service_tier");
  }

  method EditTheTools(m: map<string, JSON>) returns (edited: map<string, JSON>)
    ensures edited == Edit(m, "tools")
  {
    hide NormalizeTools;
    edited := m;
    if "tools" in edited && edited["tools"].Arr? {
      var tools := RewriteTools(edited["tools"].items);
      edited := edited["tools" := Arr(tools)];
    }
  }

  method EditTheText(m: map<string, JSON>) returns (edited: map<string, JSON>)
    ensures edited == Edit(m, "text")
  {
    edited := m;
    if "text" in edited && edited["text"].Obj? {
      var text := edited["text"].members;
      if FormatType(edited["text"]) == Some("text") {
        text := text - {"format"};
      }
      edited := if text == map[] then edited - {"text"} else edited["text" := Obj(text)];
    }
  }

  method EditTheOptions(m: map<string, JSON>) returns (edited: map<string, JSON>)
    ensures edited == Edit(m, "stream_options")
  {
    edited := m;
    if "stream_options" in edited && edited["stream_options"].Obj? {
      var given := edited["stream_options"].members;
      var options := map k | k in given && k == "reasoning_summary_delivery" :: given[k];
      edited := if options == map[] then edited - {"stream_options"} else edited["stream_options" := Obj(options)];
    }
  }

  function EditFound(key: string, found: Option<JSON>): Option<JSON>
  {
    match found
    case Some(v) => EditNamed(key, v)
    case None => None
  }

  lemma EditOnly(m: map<string, JSON>, key: string)
    ensures forall k :: k != key ==> Get(Obj(Edit(m, key)), k) == Get(Obj(m), k)
    ensures Get(Obj(Edit(m, key)), key) == EditFound(key, Get(Obj(m), key))
  {
    hide EditNamed;
  }

  lemma KeptMembers(payload: map<string, JSON>, rest: map<string, JSON>, edited: map<string, JSON>)
    requires rest == payload - Set(IDENTITY_FIELDS) - {"client_metadata"} - {"prompt_cache_key"} - {"instructions"} - {"input"}
    requires edited == Edit(Edit(Edit(Edit(rest, "tools"), "text"), "stream_options"), "service_tier")
    ensures edited == Normalize(payload).payload
  {
    hide EditMember, EditNamed, Instructions, InputItems, RemovedFields, Edit;
    FourEdits(rest);
    forall k ensures Get(Obj(edited), k) == Get(Obj(Normalize(payload).payload), k) {
      if k in payload {
        MemberOrNamed(k, payload[k]);
      }
    }
    SameMembers(edited, Normalize(payload).payload);
  }

  lemma MemberOrNamed(k: string, v: JSON)
    ensures EditMember(k, v)
         == if k in Set(IDENTITY_FIELDS) + {"client_metadata", "prompt_cache_key", "instructions", "input"} then None
            else EditNamed(k, v)
  {
    hide EditTools, EditText, EditStreamOptions, EditServiceTier;
  }

  lemma FourEdits(rest: map<string, JSON>)
    ensures var edited := Edit(Edit(Edit(Edit(rest, "tools"), "text"), "stream_options"), "service_tier");
      forall k :: Get(Obj(edited), k) == EditFound(k, Get(Obj(rest), k))
  {
    hide EditTools, EditText, EditStreamOptions, EditServiceTier, Edit, Get;
    var one := Edit(rest, "tools");
    var two := Edit(one, "text");
    var three := Edit(two, "stream_options");
    EditOnly(rest, "tools");
    EditOnly(one, "text");
    EditOnly(two, "stream_options");
    EditOnly(three, "service_tier");
  }

  lemma SameMembers(a: map<string, JSON>, b: map<string, JSON>)
    requires forall k :: Get(Obj(a), k) == Get(Obj(b), k)
    ensures a == b
  {
    forall k ensures k in a <==> k in b {
      assert Get(Obj(a), k) == Get(Obj(b), k);
    }
    forall k | k in a ensures a[k] == b[k] {
      assert Get(Obj(a), k) == Get(Obj(b), k);
    }
  }
}
