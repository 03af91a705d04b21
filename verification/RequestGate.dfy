/**
 The gate and the completion of requests from clients other than Codex.

 `CheckResponses` is a two-level grammar: /v1 accepts more than the native endpoint does.
 `Normalize` and `Completed` rewrite a /v1 request into the native grammar.
 */
module RequestGate {
  import opened Basics
  import opened Json
  import opened CodexPrinter

  datatype Entry = V1 | Native

  datatype Body = Responses | Compact | WebSocket

  /** Which parameter a refusal names. */
  datatype Param =
    | Field(key: string)
    | Include(name: string)
    | ToolKind(kind: string)
    | StreamOption(name: string)
    | TextFormat
    | Item(index: nat)
    | ItemType(index: nat)
    | ItemKind(index: nat, kind: string)
    | ItemRole(index: nat)
    | ItemContent(index: nat)
    | ItemFile(index: nat)

  /** The names never seen before, which pass, or the refusal. */
  datatype Checked = Passed(unknown: seq<string>) | Refused(param: Param)

  const CODEX_FIELDS := ["model", "instructions", "stream", "service_tier", "input", "tools", "tool_choice",
                         "parallel_tool_calls", "reasoning", "store", "stream_options", "include",
                         "prompt_cache_key", "text", "client_metadata", "access_programs"]
  const WEBSOCKET_FIELDS := ["type", "previous_response_id", "generate"]
  const REQUIRED_FIELDS := ["model", "stream", "input", "tool_choice", "parallel_tool_calls", "reasoning", "store",
                            "include"]
  const REFUSED_FIELDS := ["temperature", "top_p", "top_logprobs", "max_output_tokens", "max_tool_calls",
                           "previous_response_id", "conversation", "truncation", "background", "prompt",
                           "context_management"]
  const IDENTITY_FIELDS := ["user", "metadata", "safety_identifier", "prompt_cache_retention"]
  const CODEX_ITEM_TYPES := ["additional_tools", "message", "agent_message", "reasoning", "local_shell_call",
                             "function_call", "tool_search_call", "function_call_output", "custom_tool_call",
                             "custom_tool_call_output", "tool_search_output", "web_search_call",
                             "image_generation_call", "compaction", "compaction_summary", "configuration_update",
                             "compaction_trigger", "context_compaction"]
  const REFUSED_ITEM_TYPES := ["item_reference", "file_search_call", "computer_call", "computer_call_output",
                               "code_interpreter_call", "mcp_call", "mcp_list_tools", "mcp_approval_request",
                               "mcp_approval_response", "local_shell_call_output", "shell_call", "shell_call_output",
                               "apply_patch_call", "apply_patch_call_output"]
  const CODEX_CONTENT_TYPES := ["input_text", "input_image", "input_audio", "output_text"]
  const CODEX_TOOL_TYPES := ["function", "namespace", "tool_search", "web_search", "custom", "local_shell",
                             "image_generation"]
  const REFUSED_TOOL_TYPES := ["file_search", "code_interpreter", "computer_use_preview", "computer", "computer_use",
                               "mcp", "shell", "apply_patch"]
  const WEB_SEARCH_PREVIEW_TYPES := ["web_search_preview", "web_search_preview_2025_03_11"]
  const CODEX_INCLUDES := ["reasoning.encrypted_content", "output.encrypted_content"]

  // ---- reading a value ----

  function Get(v: JSON, key: string): Option<JSON>
  {
    if v.Obj? && key in v.members then Some(v.members[key]) else None
  }

  function GetStr(v: JSON, key: string): Option<string>
  {
    match Get(v, key)
    case Some(Str(s)) => Some(s)
    case _ => None
  }

  /** A value's `type`, or the empty string. */
  function TypeOf(v: JSON): string
  {
    GetStr(v, "type").GetOr("")
  }

  // ---- the check ----

  /** Two checks one after the other: the first refusal wins, what is unknown adds up. */
  function Then(a: Checked, b: Checked): Checked
  {
    if a.Refused? then a
    else if b.Refused? then b
    else Passed(a.unknown + b.unknown)
  }

  /** One check after another. */
  function All(cs: seq<Checked>): Checked
  {
    if cs == [] then Passed([]) else Then(All(cs[..|cs| - 1]), cs[|cs| - 1])
  }

  function CheckPart(index: nat, part: JSON, native: bool): Checked
  {
    var kind := TypeOf(part);
    if kind in CODEX_CONTENT_TYPES then Passed([])
    else if !native && (kind == "text" || kind == "image_url") then Passed([])
    else if kind == "input_file" then Refused(ItemFile(index))
    else Passed(["content: " + kind])
  }

  function PartChecks(index: nat, parts: seq<JSON>, native: bool): (r: seq<Checked>)
    ensures |r| == |parts| && forall i :: 0 <= i < |parts| ==> r[i] == CheckPart(index, parts[i], native)
  {
    seq(|parts|, i requires 0 <= i < |parts| => CheckPart(index, parts[i], native))
  }

  function CheckParts(index: nat, parts: seq<JSON>, native: bool): Checked
  {
    All(PartChecks(index, parts, native))
  }

  function CheckContent(index: nat, content: Option<JSON>, native: bool): Checked
  {
    match content
    case Some(Str(_)) => if native then Refused(ItemContent(index)) else Passed([])
    case Some(Arr(parts)) => CheckParts(index, parts, native)
    case _ => Passed([])
  }

  function CheckKind(index: nat, item: JSON, kind: string, native: bool): Checked
  {
    if kind in REFUSED_ITEM_TYPES then Refused(ItemKind(index, kind))
    else if kind !in CODEX_ITEM_TYPES then Passed(["input: " + kind])
    else if kind != "message" then Passed([])
    else if native && GetStr(item, "role") == Some("system") then Refused(ItemRole(index))
    else CheckContent(index, Get(item, "content"), native)
  }

  function CheckItem(index: nat, item: JSON, native: bool): Checked
  {
    if !item.Obj? then Refused(Item(index))
    else
      match GetStr(item, "type")
      case Some(kind) => CheckKind(index, item, kind, native)
      case None =>
        if "role" in item.members && !native then CheckKind(index, item, "message", native)
        else Refused(ItemType(index))
  }

  function ItemChecks(items: seq<JSON>, native: bool): (r: seq<Checked>)
    ensures |r| == |items| && forall i :: 0 <= i < |items| ==> r[i] == CheckItem(i, items[i], native)
  {
    seq(|items|, i requires 0 <= i < |items| => CheckItem(i, items[i], native))
  }

  function CheckItems(items: seq<JSON>, native: bool): Checked
  {
    All(ItemChecks(items, native))
  }

  function CheckTool(tool: JSON, native: bool): Checked
  {
    var kind := TypeOf(tool);
    if kind in CODEX_TOOL_TYPES then Passed([])
    else if kind in WEB_SEARCH_PREVIEW_TYPES && !native then Passed([])
    else if kind in REFUSED_TOOL_TYPES || kind in WEB_SEARCH_PREVIEW_TYPES then Refused(ToolKind(kind))
    else Passed(["tools: " + kind])
  }

  function ToolChecks(tools: seq<JSON>, native: bool): (r: seq<Checked>)
    ensures |r| == |tools| && forall i :: 0 <= i < |tools| ==> r[i] == CheckTool(tools[i], native)
  {
    seq(|tools|, i requires 0 <= i < |tools| => CheckTool(tools[i], native))
  }

  function CheckTools(tools: seq<JSON>, native: bool): Checked
  {
    All(ToolChecks(tools, native))
  }

  function CheckInclude(item: JSON): Checked
  {
    var name := if item.Str? then item.s else "";
    if name in CODEX_INCLUDES then Passed([]) else Refused(Include(name))
  }

  function IncludeChecks(values: seq<JSON>): (r: seq<Checked>)
    ensures |r| == |values| && forall i :: 0 <= i < |values| ==> r[i] == CheckInclude(values[i])
  {
    seq(|values|, i requires 0 <= i < |values| => CheckInclude(values[i]))
  }

  function CheckIncludes(values: seq<JSON>): Checked
  {
    All(IncludeChecks(values))
  }

  function FormatType(text: JSON): Option<string>
  {
    match Get(text, "format")
    case Some(format) => GetStr(format, "type")
    case None => None
  }

  function CheckText(value: JSON, native: bool): Checked
  {
    match FormatType(value)
    case None => Passed([])
    case Some(format) =>
      if format == "json_schema" then Passed([])
      else if format == "text" && !native then Passed([])
      else if format == "json_object" || format == "text" then Refused(TextFormat)
      else Passed(["text.format: " + format])
  }

  function CheckOption(name: string, native: bool): Checked
  {
    if name == "reasoning_summary_delivery" then Passed([])
    else if name == "include_usage" || name == "include_obfuscation" then
      if native then Refused(StreamOption(name)) else Passed([])
    else Passed(["stream_options." + name])
  }

  function OptionChecks(names: seq<string>, native: bool): (r: seq<Checked>)
    ensures |r| == |names| && forall i :: 0 <= i < |names| ==> r[i] == CheckOption(names[i], native)
  {
    seq(|names|, i requires 0 <= i < |names| => CheckOption(names[i], native))
  }

  function CheckOptions(names: seq<string>, native: bool): Checked
  {
    All(OptionChecks(names, native))
  }

  function CheckField(key: string, value: JSON, native: bool): Checked
  {
    if key == "stream" && native && value != Bool(true) then Refused(Field(key))
    else if key == "store" && native && value != Bool(false) then Refused(Field(key))
    else if key == "tool_choice" && value != Str("auto") then Refused(Field(key))
    else if key == "include" then
      if value.Arr? then CheckIncludes(value.items) else Refused(Field(key))
    else if key == "input" then
      match value
      case Str(_) => if native then Refused(Field(key)) else Passed([])
      case Arr(items) => CheckItems(items, native)
      case _ => Refused(Field(key))
    else if key == "tools" then
      if value.Arr? then CheckTools(value.items, native) else Refused(Field(key))
    else if key == "text" then CheckText(value, native)
    else if key == "stream_options" then
      if value.Obj? then CheckOptions(Sorted(value.members.Keys), native) else Passed([])
    else Passed([])
  }

  function CheckKey(key: string, value: JSON, entry: Entry, body: Body): Checked
  {
    if body == WebSocket && key in WEBSOCKET_FIELDS then Passed([])
    else if key in REFUSED_FIELDS then Refused(Field(key))
    else if key in IDENTITY_FIELDS then
      if entry == Native then Refused(Field(key)) else Passed([])
    else if key !in CODEX_FIELDS then Passed([key])
    else CheckField(key, value, entry == Native)
  }

  function KeyChecks(payload: map<string, JSON>, keys: seq<string>, entry: Entry, body: Body): (r: seq<Checked>)
    requires forall k :: k in keys ==> k in payload
    ensures |r| == |keys| && forall i :: 0 <= i < |keys| ==> r[i] == CheckKey(keys[i], payload[keys[i]], entry, body)
  {
    seq(|keys|, i requires 0 <= i < |keys| => CheckKey(keys[i], payload[keys[i]], entry, body))
  }

  function CheckPresent(payload: map<string, JSON>, field: string, newer: bool): Checked
  {
    if field in payload then Passed([])
    else if newer then Passed(["missing " + field])
    else Refused(Field(field))
  }

  function PresentChecks(payload: map<string, JSON>, fields: seq<string>, newer: bool): (r: seq<Checked>)
    ensures |r| == |fields| && forall i :: 0 <= i < |fields| ==> r[i] == CheckPresent(payload, fields[i], newer)
  {
    seq(|fields|, i requires 0 <= i < |fields| => CheckPresent(payload, fields[i], newer))
  }

  function CheckResponses(payload: map<string, JSON>, entry: Entry, body: Body, newer: bool): Checked
  {
    SortedKeys(payload.Keys);
    Then(All(KeyChecks(payload, Sorted(payload.Keys), entry, body)),
         if entry == Native && body != Compact then All(PresentChecks(payload, REQUIRED_FIELDS, newer)) else Passed([]))
  }

  // ---- normalization ----

  datatype Normalized = Normalized(
    payload: map<string, JSON>,
    instructions: Option<string>,
    items: seq<JSON>,
    removed: seq<string>)

  function TextPart(role: string, text: string): JSON
  {
    Obj(map["type" := Str(if role == "assistant" then "output_text" else "input_text"), "text" := Str(text)])
  }

  function Message(role: string, content: seq<JSON>): JSON
  {
    Obj(map["type" := Str("message"), "role" := Str(role), "content" := Arr(content)])
  }

  function NormalizePart(role: string, part: JSON): JSON
  {
    match GetStr(part, "type")
    case Some(kind) =>
      if kind == "text" then TextPart(role, GetStr(part, "text").GetOr(""))
      else if kind == "image_url" then
        var image := Get(part, "image_url").GetOr(Null);
        var source := Get(image, "url").GetOr(image);
        var url := if source.Str? then source.s else "";
        var converted := map["type" := Str("input_image"), "image_url" := Str(url)];
        (match GetStr(image, "detail")
         case Some(detail) => Obj(converted["detail" := Str(detail)])
         case None => Obj(converted))
      else part
    case None => part
  }

  function NormalizeParts(role: string, parts: seq<JSON>): (r: seq<JSON>)
    ensures |r| == |parts| && forall i :: 0 <= i < |parts| ==> r[i] == NormalizePart(role, parts[i])
  {
    seq(|parts|, i requires 0 <= i < |parts| => NormalizePart(role, parts[i]))
  }

  function NormalizeContent(role: string, content: Option<JSON>): seq<JSON>
  {
    match content
    case Some(Str(text)) => [TextPart(role, text)]
    case Some(Arr(parts)) => NormalizeParts(role, parts)
    case Some(other) => [other]
    case None => []
  }

  /** The item with its type written out when only its role says it is a message. */
  function Typed(item: map<string, JSON>): map<string, JSON>
  {
    if "type" !in item && "role" in item then item["type" := Str("message")] else item
  }

  function NormalizeRole(item: JSON): string
  {
    match GetStr(item, "role")
    case Some(role) => if role == "system" then "developer" else role
    case None => "developer"
  }

  function NormalizeItem(item: JSON): JSON
  {
    if !item.Obj? then item
    else
      var typed := Typed(item.members);
      if GetStr(Obj(typed), "type") != Some("message") then Obj(typed)
      else
        var role := NormalizeRole(item);
        Obj(typed["role" := Str(role)]["content" := Arr(NormalizeContent(role, Get(item, "content")))])
  }

  function NormalizeItems(items: seq<JSON>): (r: seq<JSON>)
    ensures |r| == |items| && forall i :: 0 <= i < |items| ==> r[i] == NormalizeItem(items[i])
  {
    seq(|items|, i requires 0 <= i < |items| => NormalizeItem(items[i]))
  }

  function NormalizeTool(tool: JSON): JSON
  {
    if !tool.Obj? then tool
    else
      match GetStr(tool, "type")
      case Some(kind) =>
        if kind in WEB_SEARCH_PREVIEW_TYPES then Obj(tool.members["type" := Str("web_search")])
        else if kind == "function" then
          var described := if "description" in tool.members then tool.members else tool.members["description" := Str("")];
          Obj(if "strict" in described then described else described["strict" := Bool(false)])
        else tool
      case None => tool
  }

  function NormalizeTools(tools: seq<JSON>): (r: seq<JSON>)
    ensures |r| == |tools| && forall i :: 0 <= i < |tools| ==> r[i] == NormalizeTool(tools[i])
  {
    seq(|tools|, i requires 0 <= i < |tools| => NormalizeTool(tools[i]))
  }

  function EditTools(v: JSON): Option<JSON>
  {
    Some(if v.Arr? then Arr(NormalizeTools(v.items)) else v)
  }

  function EditText(v: JSON): Option<JSON>
  {
    if !v.Obj? then Some(v)
    else
      var text := if FormatType(v) == Some("text") then v.members - {"format"} else v.members;
      if text == map[] then None else Some(Obj(text))
  }

  function EditStreamOptions(v: JSON): Option<JSON>
  {
    if !v.Obj? then Some(v)
    else
      var options := map k | k in v.members && k == "reasoning_summary_delivery" :: v.members[k];
      if options == map[] then None else Some(Obj(options))
  }

  function EditServiceTier(v: JSON): Option<JSON>
  {
    if v == Str("auto") || v == Str("default") then None else Some(v)
  }

  /** Every member of the payload rewritten on its own. */
  function EditMember(key: string, v: JSON): Option<JSON>
  {
    if key in IDENTITY_FIELDS || key == "client_metadata" || key == "prompt_cache_key" then None
    else if key == "instructions" || key == "input" then None
    else if key == "tools" then EditTools(v)
    else if key == "text" then EditText(v)
    else if key == "stream_options" then EditStreamOptions(v)
    else if key == "service_tier" then EditServiceTier(v)
    else Some(v)
  }

  function Instructions(payload: map<string, JSON>): Option<string>
  {
    match Get(Obj(payload), "instructions")
    case Some(Str(text)) => if text == "" then None else Some(text)
    case _ => None
  }

  function InputItems(payload: map<string, JSON>): seq<JSON>
  {
    match Get(Obj(payload), "input")
    case Some(Str(text)) => [Message("user", [TextPart("user", text)])]
    case Some(Arr(items)) => NormalizeItems(items)
    case _ => []
  }

  function RemovedFields(payload: map<string, JSON>): seq<string>
  {
    Listed(IDENTITY_FIELDS, payload.Keys)
  }

  function Normalize(payload: map<string, JSON>): Normalized
  {
    Normalized(
      map k | k in payload && EditMember(k, payload[k]).Some? :: EditMember(k, payload[k]).value,
      Instructions(payload),
      InputItems(payload),
      RemovedFields(payload))
  }

  // ---- completion ----

  datatype Defaults = Defaults(effort: string, verbosity: Option<string>, parallel: bool)

  /** The identifiers and computed texts a completed request carries. */
  datatype Turn = Turn(
    model: string,
    defaults: Defaults,
    installationId: string,
    threadId: string,
    turnId: string,
    instructionsId: string,
    metadata: string,
    itemIds: seq<Option<string>>)

  /** The members of a completed request, in the order Codex writes them. */
  const WIRE_ORDER := ["model", "stream", "service_tier", "input", "tools", "tool_choice", "parallel_tool_calls",
                       "reasoning", "store", "stream_options", "include", "prompt_cache_key", "text",
                       "client_metadata"]

  function WithId(item: JSON, id: string): JSON
  {
    if item.Obj? then Obj(item.members["id" := Str(id)]) else item
  }

  function ItemWithId(n: Normalized, turn: Turn, i: nat): JSON
    requires i < |n.items|
  {
    if i < |turn.itemIds| && turn.itemIds[i].Some? then WithId(n.items[i], turn.itemIds[i].value) else n.items[i]
  }

  function CompletedItems(n: Normalized, turn: Turn): seq<JSON>
  {
    (match n.instructions
     case Some(text) => [WithId(Message("developer", [TextPart("developer", text)]), turn.instructionsId)]
     case None => [])
    + seq(|n.items|, i requires 0 <= i < |n.items| => ItemWithId(n, turn, i))
  }

  function Effort(n: Normalized, turn: Turn): string
  {
    match Get(Obj(n.payload), "reasoning")
    case Some(reasoning) => GetStr(reasoning, "effort").GetOr(turn.defaults.effort)
    case None => turn.defaults.effort
  }

  function CompletedReasoning(n: Normalized, turn: Turn): JSON
  {
    match Get(Obj(n.payload), "reasoning")
    case Some(Obj(reasoning)) => Obj(reasoning["effort" := Str(Effort(n, turn))])
    case _ => Obj(map["effort" := Str(Effort(n, turn))])
  }

  function CompletedText(n: Normalized, turn: Turn): Option<JSON>
  {
    match Get(Obj(n.payload), "text")
    case Some(Obj(text)) => Some(Obj(text))
    case _ =>
      match turn.defaults.verbosity
      case Some(verbosity) => Some(Obj(map["verbosity" := Str(verbosity)]))
      case None => None
  }

  function ClientMetadata(turn: Turn): map<string, JSON>
  {
    map["x-codex-installation-id" := Str(turn.installationId),
        "session_id" := Str(turn.threadId),
        "thread_id" := Str(turn.threadId),
        "x-codex-window-id" := Str(turn.threadId + ":0"),
        "turn_id" := Str(turn.turnId),
        "root_turn_id" := Str(turn.turnId),
        "x-codex-turn-metadata" := Str(turn.metadata)]
  }

  /** The value a completed request carries under a name, if any. */
  function CompletedField(name: string, n: Normalized, turn: Turn): Option<JSON>
  {
    if name == "model" then Some(Str(turn.model))
    else if name == "stream" then Some(Bool(true))
    else if name == "input" then Some(Arr(CompletedItems(n, turn)))
    else if name == "tools" then
      match Get(Obj(n.payload), "tools")
      case Some(Arr(tools)) => Some(Arr(tools))
      case _ => None
    else if name == "tool_choice" then Some(Str("auto"))
    else if name == "parallel_tool_calls" then
      match Get(Obj(n.payload), name)
      case Some(Bool(b)) => Some(Bool(b))
      case _ => Some(Bool(turn.defaults.parallel))
    else if name == "reasoning" then Some(CompletedReasoning(n, turn))
    else if name == "store" then Some(Bool(false))
    else if name == "include" then
      match Get(Obj(n.payload), name)
      case Some(Arr(values)) => Some(Arr(values))
      case _ => Some(Arr([Str("reasoning.encrypted_content")]))
    else if name == "prompt_cache_key" then Some(Str(turn.threadId))
    else if name == "text" then CompletedText(n, turn)
    else if name == "client_metadata" then Some(Obj(ClientMetadata(turn)))
    else Get(Obj(n.payload), name)
  }

  function Completed(n: Normalized, turn: Turn): map<string, JSON>
  {
    map k | k in WIRE_ORDER && CompletedField(k, n, turn).Some? :: CompletedField(k, n, turn).value
  }

  // ---- when a check passes ----

  lemma {:induction false} AllPass(cs: seq<Checked>)
    ensures All(cs).Passed? <==> forall i :: 0 <= i < |cs| ==> cs[i].Passed?
  {
    if cs != [] {
      var init := cs[..|cs| - 1];
      AllPass(init);
      assert forall i :: 0 <= i < |init| ==> init[i] == cs[i];
    }
  }

  /** The first refusal ends the check. */
  lemma {:induction false} AllStep(cs: seq<Checked>, i: nat)
    requires i < |cs|
    ensures All(cs[..i + 1]) == Then(All(cs[..i]), cs[i])
    ensures All(cs[..i + 1]).Refused? ==> All(cs) == All(cs[..i + 1])
    decreases |cs| - i
  {
    assert cs[..i + 1][..i] == cs[..i];
    if i + 1 < |cs| {
      AllStep(cs, i + 1);
    } else {
      assert cs[..i + 1] == cs;
    }
  }

  lemma PartsPass(index: nat, parts: seq<JSON>, native: bool)
    ensures CheckParts(index, parts, native).Passed? <==> forall p :: p in parts ==> CheckPart(index, p, native).Passed?
  {
    hide CheckPart, All;
    AllPass(PartChecks(index, parts, native));
  }

  /** Whether an item passes does not depend on where it stands. */
  lemma ItemAnywhere(i: nat, j: nat, item: JSON, native: bool)
    ensures CheckItem(i, item, native).Passed? <==> CheckItem(j, item, native).Passed?
  {
    hide CheckPart;
    match Get(item, "content")
    case Some(Arr(parts)) =>
      PartsPass(i, parts, native);
      PartsPass(j, parts, native);
      assert forall p :: CheckPart(i, p, native).Passed? <==> CheckPart(j, p, native).Passed? by {
        forall p ensures CheckPart(i, p, native).Passed? <==> CheckPart(j, p, native).Passed? {
          PartAnywhere(i, j, p, native);
        }
      }
    case _ =>
  }

  lemma PartAnywhere(i: nat, j: nat, part: JSON, native: bool)
    ensures CheckPart(i, part, native).Passed? <==> CheckPart(j, part, native).Passed?
  {
  }

  lemma ItemsPass(items: seq<JSON>, native: bool)
    ensures CheckItems(items, native).Passed? <==> forall v :: v in items ==> CheckItem(0, v, native).Passed?
  {
    hide CheckItem, All;
    AllPass(ItemChecks(items, native));
    forall i | 0 <= i < |items|
      ensures CheckItem(i, items[i], native).Passed? <==> CheckItem(0, items[i], native).Passed?
    {
      ItemAnywhere(i, 0, items[i], native);
    }
  }

  lemma ToolsPass(tools: seq<JSON>, native: bool)
    ensures CheckTools(tools, native).Passed? <==> forall t :: t in tools ==> CheckTool(t, native).Passed?
  {
    hide CheckTool, All;
    AllPass(ToolChecks(tools, native));
  }

  lemma OptionsPass(names: seq<string>, native: bool)
    ensures CheckOptions(names, native).Passed? <==> forall k :: k in names ==> CheckOption(k, native).Passed?
  {
    hide CheckOption, All;
    AllPass(OptionChecks(names, native));
  }

  /** A request passes exactly when every member does and nothing required is missing. */
  lemma ResponsesPass(payload: map<string, JSON>, entry: Entry, body: Body, newer: bool)
    ensures CheckResponses(payload, entry, body, newer).Passed? <==>
      && (forall k :: k in payload ==> CheckKey(k, payload[k], entry, body).Passed?)
      && (entry == Native && body != Compact && !newer ==> forall k :: k in REQUIRED_FIELDS ==> k in payload)
  {
    hide CheckKey, All;
    SortedKeys(payload.Keys);
    AllPass(KeyChecks(payload, Sorted(payload.Keys), entry, body));
    AllPass(PresentChecks(payload, REQUIRED_FIELDS, newer));
  }

  // ---- what completion needs of an item ----

  /** What `check_item` takes for a message on /v1 and `normalize_item` rewrites as one. */
  predicate IsMessage(item: JSON)
  {
    GetStr(item, "type") == Some("message") || (item.Obj? && "type" !in item.members && "role" in item.members)
  }

  predicate HasStringType(item: JSON)
  {
    Get(item, "type").Some? ==> Get(item, "type").value.Str?
  }

  /** A message whose content is one object, neither a string nor a list, of one of these types. */
  predicate HasContentObject(item: JSON, kinds: seq<string>)
  {
    IsMessage(item) && Get(item, "content").Some? && Get(item, "content").value.Obj?
    && TypeOf(Get(item, "content").value) in kinds
  }

  predicate Completable(item: JSON)
  {
    HasStringType(item) && !HasContentObject(item, ["input_file"])
  }

  function ArrayInput(payload: map<string, JSON>): seq<JSON>
  {
    match Get(Obj(payload), "input")
    case Some(Arr(items)) => items
    case _ => []
  }

  // ---- /v1 is completed into the native grammar ----

  lemma NormalPart(role: string, part: JSON)
    requires CheckPart(0, part, false).Passed?
    ensures CheckPart(0, NormalizePart(role, part), true).Passed?
  {
  }

  lemma NormalContent(role: string, content: Option<JSON>)
    requires CheckContent(0, content, false).Passed?
    ensures CheckParts(0, NormalizeContent(role, content), true).Passed?
      <==> !(content.Some? && content.value.Obj? && TypeOf(content.value) == "input_file")
  {
    hide CheckPart, NormalizePart, TextPart, CheckParts;
    PartsPass(0, NormalizeContent(role, content), true);
    match content
    case Some(Str(text)) => TextPartPasses(role, text);
    case Some(Arr(parts)) =>
      PartsPass(0, parts, false);
      forall p | p in NormalizeParts(role, parts) ensures CheckPart(0, p, true).Passed? {
        var i :| 0 <= i < |parts| && NormalizeParts(role, parts)[i] == p;
        assert parts[i] in parts;
        NormalPart(role, parts[i]);
      }
    case Some(other) =>
      OtherPartPasses(other);
      assert other in [other];
    case None =>
  }

  lemma TextPartPasses(role: string, text: string)
    ensures CheckPart(0, TextPart(role, text), true).Passed?
  {
  }

  lemma OtherPartPasses(other: JSON)
    requires !other.Str? && !other.Arr?
    ensures CheckPart(0, other, true).Passed? <==> !(other.Obj? && TypeOf(other) == "input_file")
  {
  }

  /** The identifier completion adds is no part of the check. */
  lemma IdUnchecked(index: nat, item: JSON, id: string, native: bool)
    ensures CheckItem(index, WithId(item, id), native) == CheckItem(index, item, native)
  {
    hide CheckContent;
    if item.Obj? {
      var m := item.members["id" := Str(id)];
      assert Get(Obj(m), "type") == Get(item, "type") && Get(Obj(m), "role") == Get(item, "role");
      assert Get(Obj(m), "content") == Get(item, "content");
    }
  }

  /** What normalization makes of an item, read the way the check reads it. */
  lemma NormalizedItem(item: JSON)
    requires item.Obj?
    ensures NormalizeItem(item).Obj?
    ensures IsMessage(item) ==> GetStr(NormalizeItem(item), "type") == Some("message")
    ensures IsMessage(item) ==> GetStr(NormalizeItem(item), "role") == Some(NormalizeRole(item))
    ensures IsMessage(item) ==>
      Get(NormalizeItem(item), "content") == Some(Arr(NormalizeContent(NormalizeRole(item), Get(item, "content"))))
    ensures !IsMessage(item) ==> NormalizeItem(item) == item
  {
    hide NormalizeContent, NormalizeRole;
  }

  lemma ItemCompleted(item: JSON)
    requires CheckItem(0, item, false).Passed?
    ensures CheckItem(0, NormalizeItem(item), true).Passed? <==> Completable(item)
  {
    hide CheckContent, CheckParts, NormalizeContent, NormalizeItem;
    NormalizedItem(item);
    if IsMessage(item) {
      var n, role := NormalizeItem(item), NormalizeRole(item);
      assert "message" in CODEX_ITEM_TYPES && "message" !in REFUSED_ITEM_TYPES;
      assert CheckItem(0, item, false) == CheckContent(0, Get(item, "content"), false);
      NormalContent(role, Get(item, "content"));
      assert CheckItem(0, n, true) == CheckContent(0, Get(n, "content"), true);
      ArrayContent(NormalizeContent(role, Get(item, "content")));
    }
  }

  lemma ArrayContent(parts: seq<JSON>)
    ensures CheckContent(0, Some(Arr(parts)), true) == CheckParts(0, parts, true)
  {
  }

  lemma ToolCompleted(tool: JSON)
    requires CheckTool(tool, false).Passed?
    ensures CheckTool(NormalizeTool(tool), true).Passed?
  {
    if tool.Obj? {
      var described := if "description" in tool.members then tool.members else tool.members["description" := Str("")];
      var strict := if "strict" in described then described else described["strict" := Bool(false)];
      assert Get(Obj(strict), "type") == Get(tool, "type");
      assert "web_search" in CODEX_TOOL_TYPES;
    }
  }

  lemma ToolsCompleted(tools: seq<JSON>)
    requires CheckTools(tools, false).Passed?
    ensures CheckTools(NormalizeTools(tools), true).Passed?
  {
    hide CheckTool, NormalizeTool;
    ToolsPass(tools, false);
    ToolsPass(NormalizeTools(tools), true);
    forall t | t in NormalizeTools(tools) ensures CheckTool(t, true).Passed? {
      var i :| 0 <= i < |tools| && NormalizeTools(tools)[i] == t;
      assert tools[i] in tools;
      ToolCompleted(tools[i]);
    }
  }

  lemma TextCompleted(v: JSON)
    requires CheckText(v, false).Passed? && EditText(v).Some?
    ensures CheckText(EditText(v).value, true).Passed?
  {
  }

  lemma OptionsCompleted(v: JSON)
    requires EditStreamOptions(v).Some?
    ensures CheckField("stream_options", EditStreamOptions(v).value, true).Passed?
  {
    var w := EditStreamOptions(v).value;
    if w.Obj? {
      SortedKeys(w.members.Keys);
      OptionsPass(Sorted(w.members.Keys), true);
    }
  }

  /** The items the client gave decide: those completion adds, and the identifiers, pass. */
  lemma GivenItemsDecide(n: Normalized, turn: Turn)
    ensures CheckItems(CompletedItems(n, turn), true).Passed?
      <==> forall i :: 0 <= i < |n.items| ==> CheckItem(0, n.items[i], true).Passed?
  {
    hide CheckItem, WithId, Message, TextPart, CheckItems;
    var items := CompletedItems(n, turn);
    var head := |items| - |n.items|;
    ItemsPass(items, true);
    OwnMessages(turn, n);
    forall i | 0 <= i < |n.items|
      ensures items[head + i] in items && CheckItem(0, items[head + i], true) == CheckItem(0, n.items[i], true)
    {
      assert items[head + i] == ItemWithId(n, turn, i);
      if i < |turn.itemIds| && turn.itemIds[i].Some? {
        IdUnchecked(0, n.items[i], turn.itemIds[i].value, true);
      }
    }
    if forall i :: 0 <= i < |n.items| ==> CheckItem(0, n.items[i], true).Passed? {
      forall v | v in items ensures CheckItem(0, v, true).Passed? {
        var j :| 0 <= j < |items| && items[j] == v;
        if j >= head {
          assert items[head + (j - head)] == v;
        }
      }
    }
  }

  lemma ItemsCompleted(payload: map<string, JSON>, turn: Turn)
    requires "input" in payload ==> CheckField("input", payload["input"], false).Passed?
    ensures CheckItems(CompletedItems(Normalize(payload), turn), true).Passed?
      <==> forall v :: v in ArrayInput(payload) ==> Completable(v)
  {
    hide CheckItem, NormalizeItem, Completable, CheckItems, CompletedItems, Message, TextPart;
    var n := Normalize(payload);
    GivenItemsDecide(n, turn);
    var given := ArrayInput(payload);
    match Get(Obj(payload), "input")
    case Some(Arr(_)) =>
      ItemsPass(given, false);
      forall i | 0 <= i < |given|
        ensures given[i] in given && (CheckItem(0, n.items[i], true).Passed? <==> Completable(given[i]))
      {
        assert given[i] in given;
        assert n.items[i] == NormalizeItem(given[i]);
        ItemCompleted(given[i]);
      }
    case Some(Str(text)) => UserMessage(text);
    case _ =>
  }

  /** The items completion writes itself pass. */
  lemma OwnMessages(turn: Turn, n: Normalized)
    ensures n.instructions.Some? ==> CheckItem(0,
      WithId(Message("developer", [TextPart("developer", n.instructions.value)]), turn.instructionsId), true).Passed?
  {
    if n.instructions.Some? {
      var parts := [TextPart("developer", n.instructions.value)];
      IdUnchecked(0, Message("developer", parts), turn.instructionsId, true);
      MessagePasses("developer", n.instructions.value);
    }
  }

  lemma UserMessage(text: string)
    ensures CheckItem(0, Message("user", [TextPart("user", text)]), true).Passed?
  {
    MessagePasses("user", text);
  }

  lemma MessagePasses(role: string, text: string)
    requires role != "system"
    ensures CheckItem(0, Message(role, [TextPart(role, text)]), true).Passed?
  {
    hide CheckPart, TextPart, CheckParts;
    var parts := [TextPart(role, text)];
    PartsPass(0, parts, true);
    TextPartPasses(role, text);
    assert "message" in CODEX_ITEM_TYPES && "message" !in REFUSED_ITEM_TYPES;
  }

  lemma WireKeys(k: string)
    ensures k in WIRE_ORDER ==> k in CODEX_FIELDS && k !in REFUSED_FIELDS && k !in IDENTITY_FIELDS && k !in WEBSOCKET_FIELDS
    ensures k in REQUIRED_FIELDS ==> k in WIRE_ORDER
    ensures k in REQUIRED_FIELDS ==> k != "service_tier" && k != "tools" && k != "stream_options" && k != "text"
  {
    if k in WIRE_ORDER {
      WireFields(IndexOf(WIRE_ORDER, k));
      WireFieldsStay(IndexOf(WIRE_ORDER, k));
    }
    if k in REQUIRED_FIELDS {
      RequiredFields(IndexOf(REQUIRED_FIELDS, k));
    }
  }

  lemma WireFields(i: nat)
    requires i < |WIRE_ORDER|
    ensures WIRE_ORDER[i] in CODEX_FIELDS && WIRE_ORDER[i] !in WEBSOCKET_FIELDS
  {
  }

  lemma WireFieldsStay(i: nat)
    requires i < |WIRE_ORDER|
    ensures WIRE_ORDER[i] !in REFUSED_FIELDS && WIRE_ORDER[i] !in IDENTITY_FIELDS
  {
  }

  lemma RequiredFields(i: nat)
    requires i < |REQUIRED_FIELDS|
    ensures var k := REQUIRED_FIELDS[i];
      k in WIRE_ORDER && k != "service_tier" && k != "tools" && k != "stream_options" && k != "text"
  {
  }

  lemma EditedMember(payload: map<string, JSON>, key: string)
    ensures Get(Obj(Normalize(payload).payload), key) == if key in payload then EditMember(key, payload[key]) else None
  {
    hide EditMember, Instructions, InputItems, RemovedFields;
  }

  lemma ToolsField(payload: map<string, JSON>, turn: Turn)
    requires "tools" in payload ==> CheckField("tools", payload["tools"], false).Passed?
    requires CompletedField("tools", Normalize(payload), turn).Some?
    ensures CheckField("tools", CompletedField("tools", Normalize(payload), turn).value, true).Passed?
  {
    hide CheckTools, NormalizeTools, Normalize;
    EditedMember(payload, "tools");
    ToolsCompleted(payload["tools"].items);
  }

  lemma TextField(payload: map<string, JSON>, turn: Turn)
    requires "text" in payload ==> CheckField("text", payload["text"], false).Passed?
    requires CompletedField("text", Normalize(payload), turn).Some?
    ensures CheckField("text", CompletedField("text", Normalize(payload), turn).value, true).Passed?
  {
    hide CheckText, EditText, Normalize;
    EditedMember(payload, "text");
    if "text" in payload && EditText(payload["text"]).Some? {
      TextCompleted(payload["text"]);
    }
    VerbosityPasses(turn);
  }

  lemma OptionsField(payload: map<string, JSON>, turn: Turn)
    requires CompletedField("stream_options", Normalize(payload), turn).Some?
    ensures CheckField("stream_options", CompletedField("stream_options", Normalize(payload), turn).value, true).Passed?
  {
    hide CheckOptions, EditStreamOptions, Normalize, CheckField;
    EditedMember(payload, "stream_options");
    OptionsCompleted(payload["stream_options"]);
  }

  lemma IncludeField(payload: map<string, JSON>, turn: Turn)
    requires "include" in payload ==> CheckField("include", payload["include"], false).Passed?
    ensures CompletedField("include", Normalize(payload), turn).Some?
    ensures CheckField("include", CompletedField("include", Normalize(payload), turn).value, true).Passed?
  {
    hide CheckIncludes, Normalize;
    EditedMember(payload, "include");
    IncludePasses();
  }

  /** Every member but `input` passes. */
  lemma FieldCompleted(key: string, payload: map<string, JSON>, turn: Turn)
    requires key in WIRE_ORDER && key != "input"
    requires key in payload ==> CheckField(key, payload[key], false).Passed?
    requires CompletedField(key, Normalize(payload), turn).Some?
    ensures CheckField(key, CompletedField(key, Normalize(payload), turn).value, true).Passed?
  {
    if key == "tools" {
      ToolsField(payload, turn);
    } else if key == "text" {
      TextField(payload, turn);
    } else if key == "stream_options" {
      OptionsField(payload, turn);
    } else if key == "include" {
      IncludeField(payload, turn);
    } else {
      hide Normalize, CompletedText, CompletedReasoning, ClientMetadata, CompletedItems;
    }
  }

  lemma VerbosityPasses(turn: Turn)
    ensures turn.defaults.verbosity.Some? ==>
      CheckText(Obj(map["verbosity" := Str(turn.defaults.verbosity.value)]), true).Passed?
  {
  }

  lemma IncludePasses()
    ensures CheckIncludes([Str("reasoning.encrypted_content")]).Passed?
  {
    assert CheckIncludes([]).Passed?;
  }

  /**
   A /v1 request that passes is completed into one the native endpoint accepts, with every required
   field, exactly when each item's type is a string if present and no message's content is an
   `input_file` object standing where a list belongs.
   */
  lemma CompletionAccepted(payload: map<string, JSON>, body: Body, newer: bool, turn: Turn)
    requires CheckResponses(payload, V1, body, newer).Passed?
    ensures CheckResponses(Completed(Normalize(payload), turn), Native, Responses, false).Passed?
      <==> forall v :: v in ArrayInput(payload) ==> Completable(v)
  {
    hide CheckField, CheckKey, Completable, ArrayInput, CheckItems, Normalize, CompletedItems, CompletedField, Completed;
    var n := Normalize(payload);
    var done := Completed(n, turn);
    ResponsesPass(payload, V1, body, newer);
    ResponsesPass(done, Native, Responses, false);
    CompletedKeys(n, turn);
    forall k | k in payload && k in WIRE_ORDER ensures CheckField(k, payload[k], false).Passed? {
      WireCheck(k, payload[k], V1, body);
      assert CheckKey(k, payload[k], V1, body).Passed?;
    }
    ItemsCompleted(payload, turn);
    InputField(CompletedItems(n, turn));
    forall k | k in done ensures CheckKey(k, done[k], Native, Responses) == CheckField(k, done[k], true) {
      WireCheck(k, done[k], Native, Responses);
    }
    forall k | k in done && k != "input" ensures CheckField(k, done[k], true).Passed? {
      FieldCompleted(k, payload, turn);
    }
    assert CheckKey("input", done["input"], Native, Responses) == CheckItems(CompletedItems(n, turn), true);
    forall k | k in REQUIRED_FIELDS ensures k in done {
      WireKeys(k);
    }
  }

  lemma CompletedKeys(n: Normalized, turn: Turn)
    ensures forall k :: k in Completed(n, turn) <==> k in WIRE_ORDER && CompletedField(k, n, turn).Some?
    ensures forall k :: k in Completed(n, turn) ==> Completed(n, turn)[k] == CompletedField(k, n, turn).value
    ensures CompletedField("input", n, turn) == Some(Arr(CompletedItems(n, turn))) && "input" in Completed(n, turn)
    ensures forall k :: k in REQUIRED_FIELDS ==> k in Completed(n, turn)
  {
    hide CompletedItems, CompletedText, CompletedReasoning, ClientMetadata;
    forall k | k in REQUIRED_FIELDS ensures k in Completed(n, turn) {
      WireKeys(k);
    }
    assert "input" in WIRE_ORDER;
  }

  lemma WireCheck(k: string, v: JSON, entry: Entry, body: Body)
    requires k in WIRE_ORDER
    ensures CheckKey(k, v, entry, body) == CheckField(k, v, entry == Native)
  {
    hide CheckField;
    WireKeys(k);
  }

  lemma InputField(items: seq<JSON>)
    ensures CheckField("input", Arr(items), true) == CheckItems(items, true)
  {
  }

  /** The two shapes that are lost between the endpoints. */
  lemma CompletionRefused(turn: Turn)
    ensures var untyped := map["input" := Arr([Obj(map["type" := Null, "role" := Str("user")])])];
      && CheckResponses(untyped, V1, Responses, false).Passed?
      && CheckResponses(Completed(Normalize(untyped), turn), Native, Responses, false).Refused?
    ensures var file := Obj(map["type" := Str("input_file")]);
      var attached := map["input" := Arr([Obj(map["role" := Str("user"), "content" := file])])];
      && CheckResponses(attached, V1, Responses, false).Passed?
      && CheckResponses(Completed(Normalize(attached), turn), Native, Responses, false).Refused?
  {
    hide CheckResponses, Completed, Normalize;
    var untyped := Obj(map["type" := Null, "role" := Str("user")]);
    var file := Obj(map["type" := Str("input_file")]);
    var attached := Obj(map["role" := Str("user"), "content" := file]);
    OneItemPasses(untyped);
    OneItemPasses(attached);
    OneItemRefused(untyped, turn);
    OneItemRefused(attached, turn);
  }

  lemma OneItemRefused(item: JSON, turn: Turn)
    requires CheckItem(0, item, false).Passed? && !Completable(item)
    ensures var payload := map["input" := Arr([item])];
      CheckResponses(Completed(Normalize(payload), turn), Native, Responses, false).Refused?
  {
    hide CheckResponses, Completed, Normalize, CheckItem, Completable;
    var payload := map["input" := Arr([item])];
    OneItemPasses(item);
    CompletionAccepted(payload, Responses, false, turn);
    assert item in ArrayInput(payload);
  }

  lemma OneItemPasses(item: JSON)
    requires CheckItem(0, item, false).Passed?
    ensures CheckResponses(map["input" := Arr([item])], V1, Responses, false).Passed?
  {
    hide CheckItem, CheckResponses;
    var payload := map["input" := Arr([item])];
    ResponsesPass(payload, V1, Responses, false);
    ItemsPass([item], false);
    WireKeys("input");
    assert "input" in WIRE_ORDER;
    assert CheckKey("input", payload["input"], V1, Responses) == CheckItems([item], false);
  }

  // ---- normalizing twice ----

  /** A normalized request written as a payload again. */
  function Rejoined(n: Normalized): map<string, JSON>
  {
    var whole := n.payload["input" := Arr(n.items)];
    match n.instructions
    case Some(text) => whole["instructions" := Str(text)]
    case None => whole
  }

  lemma PartSettles(role: string, part: JSON)
    ensures NormalizePart(role, NormalizePart(role, part)) == NormalizePart(role, part)
    ensures NormalizePart(role, part) == part <==> !(part.Obj? && TypeOf(part) in ["text", "image_url"])
  {
    if part.Obj? && TypeOf(part) == "text" {
      assert GetStr(NormalizePart(role, part), "type") != Some("text");
    } else if part.Obj? && TypeOf(part) == "image_url" {
      assert GetStr(NormalizePart(role, part), "type") == Some("input_image");
    }
  }

  lemma ContentSettles(role: string, content: Option<JSON>)
    ensures NormalizeParts(role, NormalizeContent(role, content)) == NormalizeContent(role, content)
      <==> !(content.Some? && content.value.Obj? && TypeOf(content.value) in ["text", "image_url"])
  {
    hide NormalizePart, TextPart, TypeOf;
    var parts := NormalizeContent(role, content);
    match content
    case Some(Str(text)) =>
      TextPartSettles(role, text);
      assert NormalizeParts(role, parts) == parts;
    case Some(Arr(given)) =>
      forall i | 0 <= i < |given| ensures NormalizePart(role, parts[i]) == parts[i] {
        PartSettles(role, given[i]);
      }
      assert NormalizeParts(role, parts) == parts;
    case Some(other) =>
      PartSettles(role, other);
      assert NormalizeParts(role, parts)[0] == NormalizePart(role, other);
      assert NormalizeParts(role, parts) == parts <==> NormalizePart(role, other) == other;
    case None =>
      assert NormalizeParts(role, parts) == parts;
  }

  lemma TextPartSettles(role: string, text: string)
    ensures NormalizePart(role, TextPart(role, text)) == TextPart(role, text)
  {
    assert GetStr(TextPart(role, text), "type") != Some("text");
  }

  lemma ItemSettles(item: JSON)
    ensures NormalizeItem(NormalizeItem(item)) == NormalizeItem(item)
      <==> !HasContentObject(item, ["text", "image_url"])
  {
    hide NormalizeContent, NormalizeParts, TypeOf;
    if item.Obj? && IsMessage(item) {
      var role, content := NormalizeRole(item), Get(item, "content");
      var once := NormalizeItem(item);
      NormalizedItem(item);
      NormalizedItem(once);
      assert NormalizeRole(once) == role;
      ContentSettles(role, content);
      ListContent(role, NormalizeContent(role, content));
      var again := NormalizeItem(once);
      assert Get(again, "content") == Some(Arr(NormalizeParts(role, NormalizeContent(role, content))));
      assert once.members["role"] == Str(role);
      assert again.members == once.members["content" := again.members["content"]];
    } else if item.Obj? {
      NormalizedItem(item);
    }
  }

  lemma ListContent(role: string, parts: seq<JSON>)
    ensures NormalizeContent(role, Some(Arr(parts))) == NormalizeParts(role, parts)
  {
  }

  lemma ToolSettles(tool: JSON)
    ensures NormalizeTool(NormalizeTool(tool)) == NormalizeTool(tool)
  {
    if tool.Obj? && GetStr(tool, "type").Some? {
      var kind := GetStr(tool, "type").value;
      if kind in WEB_SEARCH_PREVIEW_TYPES {
        assert GetStr(NormalizeTool(tool), "type") == Some("web_search");
      } else if kind == "function" {
        assert GetStr(NormalizeTool(tool), "type") == Some("function");
        assert "description" in NormalizeTool(tool).members && "strict" in NormalizeTool(tool).members;
      }
    }
  }

  lemma MemberSettles(key: string, v: JSON)
    requires EditMember(key, v).Some?
    ensures EditMember(key, EditMember(key, v).value) == EditMember(key, v)
  {
    hide NormalizeTool;
    if key == "tools" && v.Arr? {
      forall i | 0 <= i < |v.items| ensures NormalizeTool(NormalizeTool(v.items[i])) == NormalizeTool(v.items[i]) {
        ToolSettles(v.items[i]);
      }
      assert NormalizeTools(NormalizeTools(v.items)) == NormalizeTools(v.items);
    } else if key == "stream_options" && v.Obj? {
      var options := EditStreamOptions(v).value.members;
      assert options == map k | k in options && k == "reasoning_summary_delivery" :: options[k];
    }
  }

  /** All but the items settle at once. */
  lemma RestSettles(payload: map<string, JSON>)
    ensures var once := Normalize(payload);
      Normalize(Rejoined(once)) == Normalized(once.payload, once.instructions, NormalizeItems(once.items), [])
  {
    hide EditMember, NormalizeItem, Message, TextPart, Listed;
    var once := Normalize(payload);
    var whole := Rejoined(once);
    EditsRemove();
    NothingListed(IDENTITY_FIELDS, whole.Keys);
    forall k | k in once.payload ensures k != "input" && k != "instructions" && EditMember(k, whole[k]) == Some(once.payload[k]) {
      MemberSettles(k, payload[k]);
    }
    assert Normalize(whole).payload == once.payload;
    assert Get(Obj(whole), "input") == Some(Arr(once.items));
  }

  lemma ItemsSettle(payload: map<string, JSON>)
    ensures NormalizeItems(InputItems(payload)) == InputItems(payload)
      <==> forall v :: v in ArrayInput(payload) ==> !HasContentObject(v, ["text", "image_url"])
  {
    hide NormalizeItem, HasContentObject, Message, TextPart;
    var given, once := ArrayInput(payload), InputItems(payload);
    match Get(Obj(payload), "input")
    case Some(Arr(_)) =>
      forall i | 0 <= i < |given|
        ensures given[i] in given
        ensures NormalizeItems(once)[i] == once[i] <==> !HasContentObject(given[i], ["text", "image_url"])
      {
        ItemSettles(given[i]);
      }
      assert NormalizeItems(once) == once <==> forall i :: 0 <= i < |given| ==> NormalizeItems(once)[i] == once[i];
    case Some(Str(text)) =>
      UserMessageSettles(text);
      assert NormalizeItems(once) == once;
    case _ =>
      assert NormalizeItems(once) == once;
  }

  /**
   Normalizing a normalized request changes nothing, and removes nothing, exactly when no message of
   the original carries a bare chat-style part as its content.
   */
  lemma NormalizeSettles(payload: map<string, JSON>)
    ensures var once := Normalize(payload);
      Normalize(Rejoined(once)) == once.(removed := [])
      <==> forall v :: v in ArrayInput(payload) ==> !HasContentObject(v, ["text", "image_url"])
  {
    hide *;
    RestSettles(payload);
    ItemsSettle(payload);
    ItemsOf(payload);
  }

  lemma ItemsOf(payload: map<string, JSON>)
    ensures Normalize(payload).items == InputItems(payload)
  {
  }

  lemma {:induction false} NothingListed(order: seq<string>, keys: set<string>)
    requires forall k :: k in order ==> k !in keys
    ensures Listed(order, keys) == []
  {
    if order != [] {
      NothingListed(order[1..], keys);
    }
  }

  lemma EditsRemove()
    ensures forall v, k :: k in IDENTITY_FIELDS || k == "instructions" || k == "input" ==> EditMember(k, v).None?
  {
  }

  lemma UserMessageSettles(text: string)
    ensures NormalizeItem(Message("user", [TextPart("user", text)])) == Message("user", [TextPart("user", text)])
  {
    var parts := [TextPart("user", text)];
    TextPartSettles("user", text);
    assert NormalizeParts("user", parts) == parts;
  }
}
