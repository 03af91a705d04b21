/**
 Which requests the gate passes, in the words of the two vocabularies.
 */
module GateAccepts {
  import opened Basics
  import opened Json
  import opened CodexPrinter
  import opened RequestGate

  type Record = map<string, JSON>

  predicate TypeAmong(v: JSON, kinds: set<string>)
  {
    v.Obj? && "type" in v.members && v.members["type"].Str? && v.members["type"].s in kinds
  }

  // ---- items ----

  const UNKNOWN_TO_CODEX := {"item_reference", "file_search_call", "computer_call", "computer_call_output",
                             "code_interpreter_call", "mcp_call", "mcp_list_tools", "mcp_approval_request",
                             "mcp_approval_response", "local_shell_call_output", "shell_call", "shell_call_output",
                             "apply_patch_call", "apply_patch_call_output"}

  /** No file stands in it; natively it is no bare text. */
  predicate ContentAccepted(item: Record, native: bool)
  {
    "content" in item ==>
      match item["content"]
      case Str(_) => !native
      case Arr(parts) => forall part :: part in parts ==> !TypeAmong(part, {"input_file"})
      case _ => true
  }

  /** Natively an item says its type; on /v1 a role makes it a message. */
  predicate ItemAccepted(item: JSON, native: bool)
  {
    && item.Obj?
    && if "type" in item.members && item.members["type"].Str? then
         && item.members["type"].s !in UNKNOWN_TO_CODEX
         && (item.members["type"].s == "message" ==>
               && !(native && "role" in item.members && item.members["role"] == Str("system"))
               && ContentAccepted(item.members, native))
       else !native && "role" in item.members && ContentAccepted(item.members, native)
  }

  lemma ContentIs(item: JSON, native: bool)
    requires item.Obj?
    ensures CheckContent(0, Get(item, "content"), native).Passed? <==> ContentAccepted(item.members, native)
  {
    hide CheckPart, CheckParts;
    if "content" in item.members && item.members["content"].Arr? {
      var parts := item.members["content"].items;
      PartsPass(0, parts, native);
      forall part ensures CheckPart(0, part, native).Passed? <==> !TypeAmong(part, {"input_file"}) {
        PartIs(part, native);
      }
    }
  }

  lemma PartIs(part: JSON, native: bool)
    ensures CheckPart(0, part, native).Passed? <==> !TypeAmong(part, {"input_file"})
  {
    assert CODEX_CONTENT_TYPES == ["input_text", "input_image", "input_audio", "output_text"];
    assert "input_file"[6] == 'f' && "input_text"[6] == 't' && "input_image"[6] == 'i' && "input_audio"[6] == 'a';
    assert "input_file"[0] != "output_text"[0] && "input_file"[0] != "text"[0] && "input_file"[1] != "image_url"[1];
  }

  lemma UnknownIs(kind: string)
    ensures kind in REFUSED_ITEM_TYPES <==> kind in UNKNOWN_TO_CODEX
  {
  }

  lemma MessageIsKnown()
    ensures "message" in CODEX_ITEM_TYPES && "message" !in UNKNOWN_TO_CODEX
  {
    assert CODEX_ITEM_TYPES[1] == "message";
    assert forall kind :: kind in UNKNOWN_TO_CODEX ==> |kind| > 7;
  }

  lemma KindIs(item: JSON, kind: string, native: bool)
    requires item.Obj?
    ensures CheckKind(0, item, kind, native).Passed? <==>
      && kind !in UNKNOWN_TO_CODEX
      && (kind == "message" ==>
            && !(native && "role" in item.members && item.members["role"] == Str("system"))
            && ContentAccepted(item.members, native))
  {
    hide CheckContent, ContentAccepted;
    UnknownIs(kind);
    MessageIsKnown();
    ContentIs(item, native);
  }

  /** An item passes exactly when it is of such a shape. */
  lemma ItemIs(item: JSON, native: bool)
    ensures CheckItem(0, item, native).Passed? <==> ItemAccepted(item, native)
  {
    hide CheckKind, ContentAccepted, TypeAmong;
    MessageIsKnown();
    if item.Obj? {
      KindIs(item, GetStr(item, "type").GetOr("message"), native);
    }
  }

  // ---- members ----

  const ONLY_ELSEWHERE := {"temperature", "top_p", "top_logprobs", "max_output_tokens", "max_tool_calls",
                           "previous_response_id", "conversation", "truncation", "background", "prompt",
                           "context_management"}
  const APP_IDENTITY := {"user", "metadata", "safety_identifier", "prompt_cache_retention"}
  const FOREIGN_TOOLS := {"file_search", "code_interpreter", "computer_use_preview", "computer", "computer_use", "mcp",
                          "shell", "apply_patch"}
  const SEARCH_PREVIEWS := {"web_search_preview", "web_search_preview_2025_03_11"}

  predicate InputAccepted(input: JSON, native: bool)
  {
    (input.Str? && !native) || (input.Arr? && forall item :: item in input.items ==> ItemAccepted(item, native))
  }

  predicate ToolsAccepted(tools: JSON, native: bool)
  {
    && tools.Arr?
    && forall tool :: tool in tools.items ==> !TypeAmong(tool, FOREIGN_TOOLS) && !(native && TypeAmong(tool, SEARCH_PREVIEWS))
  }

  predicate IncludeAccepted(names: JSON)
  {
    && names.Arr?
    && forall name :: name in names.items ==>
         name == Str("reasoning.encrypted_content") || name == Str("output.encrypted_content")
  }

  /** JSON without a schema is not offered; plain text natively goes without saying. */
  predicate TextAccepted(text: JSON, native: bool)
  {
    text.Obj? && "format" in text.members ==>
      && !TypeAmong(text.members["format"], {"json_object"})
      && !(native && TypeAmong(text.members["format"], {"text"}))
  }

  predicate OptionsAccepted(options: JSON, native: bool)
  {
    native && options.Obj? ==> "include_usage" !in options.members && "include_obfuscation" !in options.members
  }

  /** What a member the gate knows may be. */
  predicate MemberAccepted(name: string, value: JSON, native: bool)
  {
    && (name == "tool_choice" ==> value == Str("auto"))
    && (name == "include" ==> IncludeAccepted(value))
    && (name == "input" ==> InputAccepted(value, native))
    && (name == "tools" ==> ToolsAccepted(value, native))
    && (name == "text" ==> TextAccepted(value, native))
    && (name == "stream_options" ==> OptionsAccepted(value, native))
    && (native && name == "stream" ==> value == Bool(true))
    && (native && name == "store" ==> value == Bool(false))
    && !(native && name in APP_IDENTITY)
    && name !in ONLY_ELSEWHERE
  }

  lemma TypesApart()
    ensures forall kind :: kind in FOREIGN_TOOLS ==> kind !in CODEX_TOOL_TYPES && kind in REFUSED_TOOL_TYPES
    ensures forall kind :: kind in SEARCH_PREVIEWS <==> kind in WEB_SEARCH_PREVIEW_TYPES
    ensures forall kind :: kind in SEARCH_PREVIEWS ==> kind !in CODEX_TOOL_TYPES && kind !in REFUSED_TOOL_TYPES
    ensures forall kind :: kind in REFUSED_TOOL_TYPES ==> kind in FOREIGN_TOOLS
  {
  }

  lemma ToolIs(tool: JSON, native: bool)
    ensures CheckTool(tool, native).Passed?
      <==> !TypeAmong(tool, FOREIGN_TOOLS) && !(native && TypeAmong(tool, SEARCH_PREVIEWS))
  {
    TypesApart();
  }

  lemma ToolsAre(tools: JSON, native: bool)
    ensures CheckField("tools", tools, native).Passed? <==> ToolsAccepted(tools, native)
  {
    hide CheckTool, CheckTools, TypeAmong;
    if tools.Arr? {
      ToolsPass(tools.items, native);
      forall tool ensures CheckTool(tool, native).Passed?
        <==> !TypeAmong(tool, FOREIGN_TOOLS) && !(native && TypeAmong(tool, SEARCH_PREVIEWS))
      {
        ToolIs(tool, native);
      }
    }
  }

  lemma InputIs(input: JSON, native: bool)
    ensures CheckField("input", input, native).Passed? <==> InputAccepted(input, native)
  {
    hide CheckItem, CheckItems, ItemAccepted;
    if input.Arr? {
      ItemsPass(input.items, native);
      forall item ensures CheckItem(0, item, native).Passed? <==> ItemAccepted(item, native) {
        ItemIs(item, native);
      }
    }
  }

  lemma IncludeIs(names: JSON, native: bool)
    ensures CheckField("include", names, native).Passed? <==> IncludeAccepted(names)
  {
    hide All, CheckInclude;
    if names.Arr? {
      AllPass(IncludeChecks(names.items));
      forall name ensures CheckInclude(name).Passed?
        <==> name == Str("reasoning.encrypted_content") || name == Str("output.encrypted_content")
      {
        NameIs(name);
      }
      forall i | 0 <= i < |names.items| ensures names.items[i] in names.items {
      }
    }
  }

  lemma NameIs(name: JSON)
    ensures CheckInclude(name).Passed?
      <==> name == Str("reasoning.encrypted_content") || name == Str("output.encrypted_content")
  {
    assert CODEX_INCLUDES == ["reasoning.encrypted_content", "output.encrypted_content"];
    assert "" !in CODEX_INCLUDES;
  }

  lemma TextIs(text: JSON, native: bool)
    ensures CheckField("text", text, native).Passed? <==> TextAccepted(text, native)
  {
    assert "json_object"[5] == 'o' && "json_schema"[5] == 's' && "text"[0] == 't';
  }

  lemma OptionsAre(options: JSON, native: bool)
    ensures CheckField("stream_options", options, native).Passed? <==> OptionsAccepted(options, native)
  {
    hide CheckOptions, CheckOption;
    if options.Obj? {
      SortedKeys(options.members.Keys);
      OptionsPass(Sorted(options.members.Keys), native);
      forall name ensures CheckOption(name, native).Passed?
        <==> !(native && (name == "include_usage" || name == "include_obfuscation"))
      {
        OptionIs(name, native);
      }
    }
  }

  lemma OptionIs(name: string, native: bool)
    ensures CheckOption(name, native).Passed? <==> !(native && (name == "include_usage" || name == "include_obfuscation"))
  {
  }

  lemma FieldIs(name: string, value: JSON, native: bool)
    requires name in CODEX_FIELDS
    ensures CheckField(name, value, native).Passed? <==> MemberAccepted(name, value, native)
  {
    hide CheckItems, CheckTools, CheckText, CheckOptions, CheckIncludes, InputAccepted, ToolsAccepted, TextAccepted,
      OptionsAccepted, IncludeAccepted;
    NamesApart(name);
    InputIs(value, native);
    ToolsAre(value, native);
    TextIs(value, native);
    OptionsAre(value, native);
    IncludeIs(value, native);
  }

  lemma NamesApart(name: string)
    ensures name in CODEX_FIELDS ==> name !in ONLY_ELSEWHERE && name !in APP_IDENTITY
    ensures name in ONLY_ELSEWHERE <==> name in REFUSED_FIELDS
    ensures name in APP_IDENTITY <==> name in IDENTITY_FIELDS
    ensures name in ONLY_ELSEWHERE ==> name !in APP_IDENTITY
    ensures name in ["tool_choice", "include", "input", "tools", "text", "stream_options", "stream", "store"] ==> name in CODEX_FIELDS
  {
    RefusedNames(name);
    IdentityNames(name);
    KnownNames(name);
  }

  lemma RefusedNames(name: string)
    ensures name in ONLY_ELSEWHERE <==> name in REFUSED_FIELDS
    ensures name in ONLY_ELSEWHERE ==> name !in CODEX_FIELDS
  {
    SameRefused(name);
    NotCodex(name);
  }

  lemma SameRefused(name: string)
    ensures name in ONLY_ELSEWHERE <==> name in REFUSED_FIELDS
  {
  }

  lemma NotCodex(name: string)
    ensures name in ONLY_ELSEWHERE ==> name !in CODEX_FIELDS
  {
  }

  lemma IdentityNames(name: string)
    ensures name in APP_IDENTITY <==> name in IDENTITY_FIELDS
    ensures name in APP_IDENTITY ==> name !in CODEX_FIELDS && name !in ONLY_ELSEWHERE
  {
  }

  lemma KnownNames(name: string)
    ensures name in ["tool_choice", "include", "input", "tools", "text", "stream_options", "stream", "store"] ==> name in CODEX_FIELDS
  {
  }

  lemma KeyIs(name: string, value: JSON, entry: Entry, body: Body)
    ensures CheckKey(name, value, entry, body).Passed? <==>
      || (body == WebSocket && name in {"type", "previous_response_id", "generate"})
      || MemberAccepted(name, value, entry == Native)
  {
    hide CheckField, InputAccepted, ToolsAccepted, TextAccepted, OptionsAccepted, IncludeAccepted;
    NamesApart(name);
    assert name in WEBSOCKET_FIELDS <==> name in {"type", "previous_response_id", "generate"};
    if name in CODEX_FIELDS {
      FieldIs(name, value, entry == Native);
    }
  }

  /**
   The gate passes a request exactly when each of its members is of the vocabulary of that endpoint, or
   belongs to the socket it comes over, and natively every member Codex always writes is there.
   */
  lemma PassesExactly(payload: Record, entry: Entry, body: Body, newer: bool)
    ensures CheckResponses(payload, entry, body, newer).Passed? <==>
      && (forall name :: name in payload ==>
            || (body == WebSocket && name in {"type", "previous_response_id", "generate"})
            || MemberAccepted(name, payload[name], entry == Native))
      && (entry == Native && body != Compact && !newer ==>
            {"model", "stream", "input", "tool_choice", "parallel_tool_calls", "reasoning", "store", "include"} <= payload.Keys)
  {
    hide CheckKey, CheckResponses, MemberAccepted;
    ResponsesPass(payload, entry, body, newer);
    forall name | name in payload
      ensures CheckKey(name, payload[name], entry, body).Passed? <==>
        || (body == WebSocket && name in {"type", "previous_response_id", "generate"})
        || MemberAccepted(name, payload[name], entry == Native)
    {
      KeyIs(name, payload[name], entry, body);
    }
    RequiredAre(payload.Keys);
  }

  lemma RequiredAre(keys: set<string>)
    ensures (forall k :: k in REQUIRED_FIELDS ==> k in keys)
      <==> {"model", "stream", "input", "tool_choice", "parallel_tool_calls", "reasoning", "store", "include"} <= keys
  {
    forall k ensures k in REQUIRED_FIELDS
      <==> k in {"model", "stream", "input", "tool_choice", "parallel_tool_calls", "reasoning", "store", "include"}
    {
    }
  }

  // ---- which item is refused ----

  /** A refusal that names the item at an index. */
  predicate NamesItem(param: Param, index: nat)
  {
    match param
    case Item(i) => i == index
    case ItemType(i) => i == index
    case ItemKind(i, _) => i == index
    case ItemRole(i) => i == index
    case ItemContent(i) => i == index
    case ItemFile(i) => i == index
    case _ => false
  }

  /** A refusal of `input` names the first item that is not accepted. */
  lemma FirstItemRefused(items: seq<JSON>, native: bool) returns (index: nat)
    requires CheckItems(items, native).Refused?
    ensures index < |items| && !ItemAccepted(items[index], native) && NamesItem(CheckItems(items, native).param, index)
    ensures forall i :: 0 <= i < index ==> ItemAccepted(items[i], native)
  {
    hide CheckItem, ItemAccepted, All, NamesItem;
    var checks := ItemChecks(items, native);
    index := FirstRefused(checks);
    forall i | 0 <= i <= index ensures CheckItem(i, items[i], native).Passed? <==> ItemAccepted(items[i], native) {
      ItemAnywhere(i, 0, items[i], native);
      ItemIs(items[i], native);
    }
    ItemNamed(index, items[index], native);
  }

  lemma {:induction false} FirstRefused(cs: seq<Checked>) returns (index: nat)
    requires All(cs).Refused?
    ensures index < |cs| && cs[index] == All(cs) && forall i :: 0 <= i < index ==> cs[i].Passed?
  {
    var init := cs[..|cs| - 1];
    if All(init).Refused? {
      index := FirstRefused(init);
      assert forall i :: 0 <= i <= index ==> cs[i] == init[i];
    } else {
      AllPass(init);
      index := |cs| - 1;
      assert forall i :: 0 <= i < index ==> cs[i] == init[i];
    }
  }

  lemma ItemNamed(index: nat, item: JSON, native: bool)
    ensures CheckItem(index, item, native).Refused? ==> NamesItem(CheckItem(index, item, native).param, index)
  {
    hide CheckKind;
    if item.Obj? {
      KindNamed(index, item, GetStr(item, "type").GetOr("message"), native);
    }
  }

  lemma KindNamed(index: nat, item: JSON, kind: string, native: bool)
    ensures CheckKind(index, item, kind, native).Refused? ==> NamesItem(CheckKind(index, item, kind, native).param, index)
  {
    hide CheckParts;
    match Get(item, "content")
    case Some(Arr(parts)) =>
      if CheckParts(index, parts, native).Refused? {
        PartNamed(index, parts, native);
      }
    case _ =>
  }

  lemma PartNamed(index: nat, parts: seq<JSON>, native: bool)
    requires CheckParts(index, parts, native).Refused?
    ensures CheckParts(index, parts, native).param == ItemFile(index)
  {
    hide All;
    var i := FirstRefused(PartChecks(index, parts, native));
    assert CheckPart(index, parts[i], native).Refused?;
  }

  // ---- names never seen before ----

  const FAMILIAR_PARTS := {"input_text", "input_image", "input_audio", "output_text"}
  const FAMILIAR_TOOLS := {"function", "namespace", "tool_search", "web_search", "custom", "local_shell", "image_generation"}
  const FAMILIAR_ITEMS := {"additional_tools", "message", "agent_message", "reasoning", "local_shell_call", "function_call",
                           "tool_search_call", "function_call_output", "custom_tool_call", "custom_tool_call_output",
                           "tool_search_output", "web_search_call", "image_generation_call", "compaction",
                           "compaction_summary", "configuration_update", "compaction_trigger", "context_compaction"}
  const FAMILIAR_MEMBERS := {"model", "instructions", "stream", "service_tier", "input", "tools", "tool_choice",
                             "parallel_tool_calls", "reasoning", "store", "stream_options", "include", "prompt_cache_key",
                             "text", "client_metadata", "access_programs"}

  function TypeName(v: JSON, default: string): string
  {
    if v.Obj? && "type" in v.members && v.members["type"].Str? then v.members["type"].s else default
  }

  predicate PartUnfamiliar(part: JSON, native: bool, name: string)
  {
    var kind := TypeName(part, "");
    name == "content: " + kind && kind !in FAMILIAR_PARTS && (native || (kind != "text" && kind != "image_url"))
  }

  predicate ItemUnfamiliar(item: JSON, native: bool, name: string)
  {
    var kind := TypeName(item, "message");
    if kind != "message" then kind !in FAMILIAR_ITEMS && name == "input: " + kind
    else
      && item.Obj? && "content" in item.members && item.members["content"].Arr?
      && exists part :: part in item.members["content"].items && PartUnfamiliar(part, native, name)
  }

  predicate ToolUnfamiliar(tool: JSON, native: bool, name: string)
  {
    var kind := TypeName(tool, "");
    name == "tools: " + kind && kind !in FAMILIAR_TOOLS && kind !in SEARCH_PREVIEWS
  }

  predicate TextUnfamiliar(text: JSON, name: string)
  {
    text.Obj? && "format" in text.members &&
    var kind := TypeName(text.members["format"], "text");
    name == "text.format: " + kind && kind != "json_schema" && kind != "text"
  }

  predicate OptionUnfamiliar(option: string, name: string)
  {
    && name == "stream_options." + option
    && option != "reasoning_summary_delivery" && option != "include_usage" && option != "include_obfuscation"
  }

  predicate MemberUnfamiliar(member: string, value: JSON, native: bool, name: string)
  {
    if member == "input" then value.Arr? && exists item :: item in value.items && ItemUnfamiliar(item, native, name)
    else if member == "tools" then value.Arr? && exists tool :: tool in value.items && ToolUnfamiliar(tool, native, name)
    else if member == "text" then TextUnfamiliar(value, name)
    else if member == "stream_options" then
      value.Obj? && exists option :: option in value.members && OptionUnfamiliar(option, name)
    else member !in FAMILIAR_MEMBERS && member !in APP_IDENTITY && name == member
  }

  lemma {:induction false} AllUnknown(cs: seq<Checked>, name: string)
    requires All(cs).Passed?
    ensures name in All(cs).unknown <==> exists i :: 0 <= i < |cs| && cs[i].Passed? && name in cs[i].unknown
  {
    if cs != [] {
      var init := cs[..|cs| - 1];
      AllUnknown(init, name);
      assert forall i :: 0 <= i < |init| ==> init[i] == cs[i];
    }
  }

  lemma PartNames(part: JSON, native: bool, name: string)
    requires CheckPart(0, part, native).Passed?
    ensures name in CheckPart(0, part, native).unknown <==> PartUnfamiliar(part, native, name)
  {
    assert CODEX_CONTENT_TYPES == ["input_text", "input_image", "input_audio", "output_text"];
  }

  lemma PartsNames(parts: seq<JSON>, native: bool, name: string)
    requires CheckParts(0, parts, native).Passed?
    ensures name in CheckParts(0, parts, native).unknown <==> exists part :: part in parts && PartUnfamiliar(part, native, name)
  {
    hide All, CheckPart, PartUnfamiliar;
    AllPass(PartChecks(0, parts, native));
    AllUnknown(PartChecks(0, parts, native), name);
    forall i | 0 <= i < |parts|
      ensures name in CheckPart(0, parts[i], native).unknown <==> PartUnfamiliar(parts[i], native, name)
    {
      PartNames(parts[i], native, name);
    }
  }

  lemma KnownItems(kind: string)
    ensures kind in CODEX_ITEM_TYPES <==> kind in FAMILIAR_ITEMS
  {
  }

  lemma ItemNames(item: JSON, native: bool, name: string)
    requires CheckItem(0, item, native).Passed?
    ensures name in CheckItem(0, item, native).unknown <==> ItemUnfamiliar(item, native, name)
  {
    hide CheckParts, PartUnfamiliar;
    KnownItems(TypeName(item, "message"));
    UnknownIs(TypeName(item, "message"));
    MessageIsKnown();
    if "content" in item.members && item.members["content"].Arr? {
      var parts := item.members["content"].items;
      if CheckParts(0, parts, native).Passed? {
        PartsNames(parts, native, name);
      }
    }
  }

  /** What is reported of an item does not depend on its place either. */
  lemma ItemNamesAnywhere(i: nat, item: JSON, native: bool)
    requires CheckItem(i, item, native).Passed?
    ensures CheckItem(i, item, native) == CheckItem(0, item, native)
  {
    hide All, CheckPart;
    if item.Obj? && "content" in item.members && item.members["content"].Arr? {
      SamePartChecks(i, item.members["content"].items, native);
    }
  }

  lemma SamePartChecks(index: nat, parts: seq<JSON>, native: bool)
    ensures CheckParts(index, parts, native).Passed? || CheckParts(0, parts, native).Passed? ==>
      CheckParts(index, parts, native) == CheckParts(0, parts, native)
  {
    hide All;
    AllPass(PartChecks(index, parts, native));
    AllPass(PartChecks(0, parts, native));
    if CheckParts(index, parts, native).Passed? || CheckParts(0, parts, native).Passed? {
      assert PartChecks(index, parts, native) == PartChecks(0, parts, native);
    }
  }

  lemma InputNames(input: JSON, native: bool, name: string)
    requires CheckField("input", input, native).Passed?
    ensures name in CheckField("input", input, native).unknown <==> MemberUnfamiliar("input", input, native, name)
  {
    hide All, CheckItem, ItemUnfamiliar;
    if input.Arr? {
      AllPass(ItemChecks(input.items, native));
      AllUnknown(ItemChecks(input.items, native), name);
      forall i | 0 <= i < |input.items|
        ensures name in CheckItem(i, input.items[i], native).unknown <==> ItemUnfamiliar(input.items[i], native, name)
      {
        assert ItemChecks(input.items, native)[i].Passed?;
        ItemNamesAnywhere(i, input.items[i], native);
        ItemNames(input.items[i], native, name);
      }
    }
  }

  lemma ToolNames(tool: JSON, native: bool, name: string)
    requires CheckTool(tool, native).Passed?
    ensures name in CheckTool(tool, native).unknown <==> ToolUnfamiliar(tool, native, name)
  {
    TypesApart();
    KnownTools(TypeName(tool, ""));
  }

  lemma KnownTools(kind: string)
    ensures kind in CODEX_TOOL_TYPES <==> kind in FAMILIAR_TOOLS
  {
  }

  lemma ToolsNames(tools: JSON, native: bool, name: string)
    requires CheckField("tools", tools, native).Passed?
    ensures name in CheckField("tools", tools, native).unknown <==> MemberUnfamiliar("tools", tools, native, name)
  {
    hide All, CheckTool, ToolUnfamiliar;
    AllPass(ToolChecks(tools.items, native));
    AllUnknown(ToolChecks(tools.items, native), name);
    forall i | 0 <= i < |tools.items|
      ensures name in CheckTool(tools.items[i], native).unknown <==> ToolUnfamiliar(tools.items[i], native, name)
    {
      assert ToolChecks(tools.items, native)[i].Passed?;
      ToolNames(tools.items[i], native, name);
    }
  }

  lemma TextNames(text: JSON, native: bool, name: string)
    requires CheckField("text", text, native).Passed?
    ensures name in CheckField("text", text, native).unknown <==> MemberUnfamiliar("text", text, native, name)
  {
    assert "json_object"[5] == 'o' && "json_schema"[5] == 's' && "text"[0] == 't';
  }

  lemma OneOption(option: string, native: bool, name: string)
    requires CheckOption(option, native).Passed?
    ensures name in CheckOption(option, native).unknown <==> OptionUnfamiliar(option, name)
  {
  }

  lemma OptionNames(options: JSON, native: bool, name: string)
    requires CheckField("stream_options", options, native).Passed?
    ensures name in CheckField("stream_options", options, native).unknown
      <==> MemberUnfamiliar("stream_options", options, native, name)
  {
    hide All, CheckOption, OptionUnfamiliar;
    if options.Obj? {
      var names := Sorted(options.members.Keys);
      SortedKeys(options.members.Keys);
      AllPass(OptionChecks(names, native));
      AllUnknown(OptionChecks(names, native), name);
      forall i | 0 <= i < |names|
        ensures names[i] in options.members
        ensures name in CheckOption(names[i], native).unknown <==> OptionUnfamiliar(names[i], name)
      {
        assert names[i] in names && OptionChecks(names, native)[i].Passed?;
        OneOption(names[i], native, name);
      }
      assert forall option :: option in options.members ==> option in names;
    }
  }

  lemma KnownMembers(member: string)
    ensures member in CODEX_FIELDS <==> member in FAMILIAR_MEMBERS
  {
  }

  lemma FieldNames(member: string, value: JSON, native: bool, name: string)
    requires member in CODEX_FIELDS && CheckField(member, value, native).Passed?
    ensures name in CheckField(member, value, native).unknown <==> MemberUnfamiliar(member, value, native, name)
  {
    hide CheckItems, CheckTools, CheckText, CheckOptions, ItemUnfamiliar, ToolUnfamiliar, TextUnfamiliar, OptionUnfamiliar;
    KnownMembers(member);
    if member == "input" {
      InputNames(value, native, name);
    } else if member == "tools" {
      ToolsNames(value, native, name);
    } else if member == "text" {
      TextNames(value, native, name);
    } else if member == "stream_options" {
      OptionNames(value, native, name);
    } else if member == "include" {
      IncludeNames(value, name);
    }
  }

  lemma IncludeNames(value: JSON, name: string)
    requires value.Arr? && CheckIncludes(value.items).Passed?
    ensures name !in CheckIncludes(value.items).unknown
  {
    hide All;
    AllPass(IncludeChecks(value.items));
    AllUnknown(IncludeChecks(value.items), name);
  }

  lemma KeyNames(member: string, value: JSON, entry: Entry, body: Body, name: string)
    requires CheckKey(member, value, entry, body).Passed?
    ensures name in CheckKey(member, value, entry, body).unknown <==>
      && !(body == WebSocket && member in {"type", "previous_response_id", "generate"})
      && MemberUnfamiliar(member, value, entry == Native, name)
  {
    hide CheckField, ItemUnfamiliar, ToolUnfamiliar, TextUnfamiliar, OptionUnfamiliar;
    NamesApart(member);
    KnownMembers(member);
    assert member in WEBSOCKET_FIELDS <==> member in {"type", "previous_response_id", "generate"};
    if member in CODEX_FIELDS && !(body == WebSocket && member in WEBSOCKET_FIELDS) {
      FieldNames(member, value, entry == Native, name);
    }
  }

  /** What is reported of a request that passes: every name in it that Codex's vocabulary has not, and no other. */
  lemma ReportedExactly(payload: Record, entry: Entry, body: Body, newer: bool, name: string)
    requires CheckResponses(payload, entry, body, newer).Passed?
    ensures name in CheckResponses(payload, entry, body, newer).unknown <==>
      || (exists member :: member in payload && !(body == WebSocket && member in {"type", "previous_response_id", "generate"})
            && MemberUnfamiliar(member, payload[member], entry == Native, name))
      || (entry == Native && body != Compact && newer
          && exists member :: member in REQUIRED_FIELDS && member !in payload && name == "missing " + member)
  {
    hide All, CheckKey, MemberUnfamiliar;
    var keys := Sorted(payload.Keys);
    SortedKeys(payload.Keys);
    var checks, present := KeyChecks(payload, keys, entry, body), PresentChecks(payload, REQUIRED_FIELDS, newer);
    AllPass(checks);
    AllUnknown(checks, name);
    if entry == Native && body != Compact {
      AllUnknown(present, name);
    }
    forall i | 0 <= i < |keys|
      ensures keys[i] in payload
      ensures name in checks[i].unknown <==>
        && !(body == WebSocket && keys[i] in {"type", "previous_response_id", "generate"})
        && MemberUnfamiliar(keys[i], payload[keys[i]], entry == Native, name)
    {
      assert keys[i] in keys && checks[i].Passed?;
      KeyNames(keys[i], payload[keys[i]], entry, body, name);
    }
    assert forall member :: member in payload ==> member in keys;
  }
}
