/**
 What a completed request says, member by member and item by item, next to what the client wrote.
 */
module CompletedContent {
  import opened Basics
  import opened Json
  import opened JsonReader
  import opened CodexPrinter
  import opened RequestGate
  import opened RequestCompletion

  type Record = map<string, JSON>

  /** The same members but for those named. */
  ghost predicate SameBut(given: Record, sent: Record, names: set<string>)
  {
    && given.Keys - names == sent.Keys - names
    && forall k :: k in given && k !in names ==> k in sent && sent[k] == given[k]
  }

  /** Under a name stands that value. */
  predicate Says(v: Record, name: string, value: JSON)
  {
    name in v && v[name] == value
  }

  /** A string under a name, or another one. */
  function StringOr(v: Record, name: string, default: string): string
  {
    if name in v && v[name].Str? then v[name].s else default
  }

  // ---- the items ----

  /** A system message speaks as the developer, as does one that says no role. */
  function SentRole(item: Record): string
  {
    if Says(item, "role", Str("system")) then "developer" else StringOr(item, "role", "developer")
  }

  /** Text, which the assistant put out and everyone else puts in. */
  predicate IsText(part: JSON, role: string, text: string)
  {
    part == Obj(map["type" := Str(if role == "assistant" then "output_text" else "input_text"), "text" := Str(text)])
  }

  /** An image by its address: an object with a `url`, or the string itself. */
  predicate IsImage(part: JSON, image: Option<JSON>)
  {
    && part.Obj? && Says(part.members, "type", Str("input_image"))
    && Says(part.members, "image_url", Str(
         match image
         case Some(Obj(of)) => StringOr(of, "url", "")
         case Some(Str(url)) => url
         case _ => ""))
    && part.members.Keys - {"detail"} == {"type", "image_url"}
    && match image
       case Some(Obj(of)) => if "detail" in of && of["detail"].Str? then Says(part.members, "detail", of["detail"])
                             else "detail" !in part.members
       case _ => "detail" !in part.members
  }

  predicate PartSent(given: JSON, sent: JSON, role: string)
  {
    if given.Obj? && Says(given.members, "type", Str("text")) then IsText(sent, role, StringOr(given.members, "text", ""))
    else if given.Obj? && Says(given.members, "type", Str("image_url")) then
      IsImage(sent, if "image_url" in given.members then Some(given.members["image_url"]) else None)
    else sent == given
  }

  predicate ContentSent(given: Option<JSON>, sent: JSON, role: string)
  {
    && sent.Arr?
    && match given
       case Some(Str(text)) => |sent.items| == 1 && IsText(sent.items[0], role, text)
       case Some(Arr(parts)) => |sent.items| == |parts| && forall k :: 0 <= k < |parts| ==> PartSent(parts[k], sent.items[k], role)
       case Some(other) => sent.items == [other]
       case None => sent.items == []
  }

  /** An item as it is sent: its identifier, where the pool has one for it; of a message its role and content; nothing else. */
  ghost predicate ItemSent(given: JSON, sent: JSON, id: Option<string>)
  {
    if !given.Obj? then sent == given
    else
      && sent.Obj?
      && (if id.Some? then Says(sent.members, "id", Str(id.value))
          else if "id" in given.members then Says(sent.members, "id", given.members["id"]) else "id" !in sent.members)
      && if IsMessage(given) then
           && SameBut(given.members, sent.members, {"id", "type", "role", "content"})
           && Says(sent.members, "type", Str("message")) && Says(sent.members, "role", Str(SentRole(given.members)))
           && "content" in sent.members
           && ContentSent(if "content" in given.members then Some(given.members["content"]) else None,
                          sent.members["content"], SentRole(given.members))
         else SameBut(given.members, sent.members, {"id"})
  }

  function IdOf(turn: Turn, i: nat): Option<string>
  {
    if i < |turn.itemIds| then turn.itemIds[i] else None
  }

  /** The items behind the instructions: the client's own, one for one, or one message of the user. */
  ghost predicate ItemsSent(input: Option<JSON>, sent: seq<JSON>, turn: Turn)
  {
    match input
    case Some(Arr(items)) => |sent| == |items| && forall i :: 0 <= i < |items| ==> ItemSent(items[i], sent[i], IdOf(turn, i))
    case Some(Str(text)) =>
      && |sent| == 1 && sent[0].Obj?
      && sent[0].members.Keys - {"id"} == {"type", "role", "content"}
      && Says(sent[0].members, "type", Str("message")) && Says(sent[0].members, "role", Str("user"))
      && ContentSent(Some(Str(text)), sent[0].members["content"], "user")
      && (if IdOf(turn, 0).Some? then Says(sent[0].members, "id", Str(IdOf(turn, 0).value)) else "id" !in sent[0].members)
    case _ => sent == []
  }

  ghost predicate InputSent(payload: Record, sent: JSON, turn: Turn)
  {
    && sent.Arr?
    && var given := if "input" in payload then Some(payload["input"]) else None;
       if "instructions" in payload && payload["instructions"].Str? && payload["instructions"].s != "" then
         && sent.items != []
         && sent.items[0] == Obj(map["type" := Str("message"), "role" := Str("developer"), "id" := Str(turn.instructionsId),
              "content" := Arr([Obj(map["type" := Str("input_text"), "text" := payload["instructions"]])])])
         && ItemsSent(given, sent.items[1..], turn)
       else ItemsSent(given, sent.items, turn)
  }

  lemma PartIs(role: string, part: JSON)
    ensures PartSent(part, NormalizePart(role, part), role)
  {
  }

  lemma ContentIs(role: string, content: Option<JSON>)
    ensures ContentSent(content, Arr(NormalizeContent(role, content)), role)
  {
    hide NormalizePart, PartSent;
    match content
    case Some(Arr(parts)) =>
      forall k | 0 <= k < |parts| ensures PartSent(parts[k], NormalizePart(role, parts[k]), role) {
        PartIs(role, parts[k]);
      }
    case _ =>
  }

  lemma RoleIs(item: JSON)
    requires item.Obj?
    ensures NormalizeRole(item) == SentRole(item.members)
  {
  }

  /** An item normalized, and given its identifier, is what the client wrote. */
  lemma ItemIs(item: JSON, id: Option<string>)
    ensures ItemSent(item, if id.Some? then WithId(NormalizeItem(item), id.value) else NormalizeItem(item), id)
  {
    hide NormalizeContent, ContentSent, NormalizeRole;
    if item.Obj? {
      RoleIs(item);
      ContentIs(NormalizeRole(item), Get(item, "content"));
      KeysApart();
    }
  }

  lemma KeysApart()
    ensures "id" != "type" && "id" != "role" && "id" != "content" && "type" != "role" && "type" != "content" && "role" != "content"
  {
    assert "id"[0] != "type"[0] && "id"[0] != "role"[0] && "id"[0] != "content"[0];
    assert "type"[0] != "role"[0] && "type"[0] != "content"[0] && "role"[0] != "content"[0];
  }

  lemma TextItemIs(text: string, turn: Turn)
    ensures var n := [Message("user", [TextPart("user", text)])];
      ItemsSent(Some(Str(text)), [if IdOf(turn, 0).Some? then WithId(n[0], IdOf(turn, 0).value) else n[0]], turn)
  {
    KeysApart();
  }

  /** The items as they are sent, behind the instructions. */
  function OwnItems(n: Normalized, turn: Turn): (r: seq<JSON>)
    ensures |r| == |n.items| && forall i :: 0 <= i < |n.items| ==> r[i] == ItemWithId(n, turn, i)
  {
    seq(|n.items|, i requires 0 <= i < |n.items| => ItemWithId(n, turn, i))
  }

  lemma ItemsAre(payload: Record, turn: Turn)
    ensures ItemsSent(if "input" in payload then Some(payload["input"]) else None, OwnItems(Normalize(payload), turn), turn)
  {
    hide Message, TextPart, WithId, NormalizeItem, ItemSent;
    var n := Normalize(payload);
    var own := OwnItems(n, turn);
    match Get(Obj(payload), "input")
    case Some(Str(text)) =>
      TextItemIs(text, turn);
      assert own == [ItemWithId(n, turn, 0)];
    case Some(Arr(client)) =>
      forall i | 0 <= i < |client| ensures ItemSent(client[i], own[i], IdOf(turn, i)) {
        ItemIs(client[i], IdOf(turn, i));
      }
    case _ =>
  }

  lemma InputIs(payload: Record, turn: Turn)
    ensures InputSent(payload, Arr(CompletedItems(Normalize(payload), turn)), turn)
  {
    hide Message, TextPart, WithId, NormalizeItem, ItemsSent;
    var n := Normalize(payload);
    var items := CompletedItems(n, turn);
    ItemsAre(payload, turn);
    if n.instructions.Some? {
      LeadIs(n.instructions.value, turn.instructionsId);
      assert items[1..] == OwnItems(n, turn);
    } else {
      assert items == OwnItems(n, turn);
    }
  }

  lemma LeadIs(text: string, id: string)
    ensures WithId(Message("developer", [TextPart("developer", text)]), id)
         == Obj(map["type" := Str("message"), "role" := Str("developer"), "id" := Str(id),
                    "content" := Arr([Obj(map["type" := Str("input_text"), "text" := Str(text)])])])
  {
    KeysApart();
    assert "developer"[0] != "assistant"[0];
  }

  // ---- the tools ----

  /** A preview of web search is web search; a function says its description and whether it is strict. */
  ghost predicate ToolSent(given: JSON, sent: JSON)
  {
    if !given.Obj? then sent == given
    else if Says(given.members, "type", Str("web_search_preview"))
            || Says(given.members, "type", Str("web_search_preview_2025_03_11")) then
      sent.Obj? && SameBut(given.members, sent.members, {"type"}) && Says(sent.members, "type", Str("web_search"))
    else if Says(given.members, "type", Str("function")) then
      && sent.Obj? && SameBut(given.members, sent.members, {"description", "strict"})
      && Says(sent.members, "description", if "description" in given.members then given.members["description"] else Str(""))
      && Says(sent.members, "strict", if "strict" in given.members then given.members["strict"] else Bool(false))
    else sent == given
  }

  lemma ToolIs(tool: JSON)
    ensures ToolSent(tool, NormalizeTool(tool))
  {
    assert "description"[0] != "strict"[0] && "description"[0] != "type"[0] && "strict"[1] != "type"[1];
    assert WEB_SEARCH_PREVIEW_TYPES == ["web_search_preview", "web_search_preview_2025_03_11"];
    assert "function"[0] != "web_search_preview"[0] && "function"[0] != "web_search_preview_2025_03_11"[0];
  }

  // ---- the other members ----

  /** A member the client may write, sent as the client wrote it where the condition holds. */
  predicate SentIf(payload: Record, sent: Record, name: string, condition: bool)
  {
    if name in payload && condition then Says(sent, name, payload[name]) else name !in sent
  }

  ghost predicate ToolsSent(payload: Record, sent: Record)
  {
    if "tools" in payload && payload["tools"].Arr? then
      && "tools" in sent && sent["tools"].Arr? && |sent["tools"].items| == |payload["tools"].items|
      && forall i :: 0 <= i < |payload["tools"].items| ==> ToolSent(payload["tools"].items[i], sent["tools"].items[i])
    else "tools" !in sent
  }

  /** The client's reasoning, with the effort it names or else the model's. */
  ghost predicate ReasoningSent(payload: Record, sent: Record, turn: Turn)
  {
    && "reasoning" in sent && sent["reasoning"].Obj?
    && var given := if "reasoning" in payload && payload["reasoning"].Obj? then payload["reasoning"].members else map[];
       && SameBut(given, sent["reasoning"].members, {"effort"})
       && Says(sent["reasoning"].members, "effort", Str(StringOr(given, "effort", turn.defaults.effort)))
  }

  /** Whether the format asked for is plain text, which is how text comes anyway. */
  predicate PlainFormat(text: Record)
  {
    "format" in text && text["format"].Obj? && Says(text["format"].members, "type", Str("text"))
  }

  /** The client's text controls without a plain format, or else the model's verbosity. */
  ghost predicate TextSent(payload: Record, sent: Record, turn: Turn)
  {
    var given := if "text" in payload && payload["text"].Obj? then payload["text"].members else map[];
    var kept := if PlainFormat(given) then given - {"format"} else given;
    if kept != map[] then Says(sent, "text", Obj(kept))
    else if turn.defaults.verbosity.Some? then Says(sent, "text", Obj(map["verbosity" := Str(turn.defaults.verbosity.value)]))
    else "text" !in sent
  }

  /** Of the stream options only the delivery of summaries goes out. */
  ghost predicate OptionsSent(payload: Record, sent: Record)
  {
    if "stream_options" !in payload then "stream_options" !in sent
    else if !payload["stream_options"].Obj? then Says(sent, "stream_options", payload["stream_options"])
    else
      var given := payload["stream_options"].members;
      if "reasoning_summary_delivery" in given
      then Says(sent, "stream_options", Obj(map["reasoning_summary_delivery" := given["reasoning_summary_delivery"]]))
      else "stream_options" !in sent
  }

  /** What the pool says for itself, whatever the client wrote. */
  predicate OwnSent(sent: Record, turn: Turn)
  {
    && Says(sent, "model", Str(turn.model)) && Says(sent, "stream", Bool(true)) && Says(sent, "store", Bool(false))
    && Says(sent, "tool_choice", Str("auto")) && Says(sent, "prompt_cache_key", Str(turn.threadId))
    && Says(sent, "client_metadata", Obj(map[
         "x-codex-installation-id" := Str(turn.installationId), "session_id" := Str(turn.threadId),
         "thread_id" := Str(turn.threadId), "x-codex-window-id" := Str(turn.threadId + ":0"), "turn_id" := Str(turn.turnId),
         "root_turn_id" := Str(turn.turnId), "x-codex-turn-metadata" := Str(turn.metadata)]))
  }

  ghost predicate OthersSent(payload: Record, sent: Record, turn: Turn)
  {
    && sent.Keys <= {"model", "stream", "service_tier", "input", "tools", "tool_choice", "parallel_tool_calls", "reasoning",
                     "store", "stream_options", "include", "prompt_cache_key", "text", "client_metadata"}
    && OwnSent(sent, turn) && ToolsSent(payload, sent) && ReasoningSent(payload, sent, turn)
    && TextSent(payload, sent, turn) && OptionsSent(payload, sent)
    && TierSent(payload, sent) && ParallelSent(payload, sent, turn) && IncludeSent(payload, sent)
  }

  /** What a completed request has under a name of the wire order. */
  lemma FieldIs(n: Normalized, turn: Turn, name: string)
    requires name in WIRE_ORDER
    ensures name in Completed(n, turn) <==> CompletedField(name, n, turn).Some?
    ensures name in Completed(n, turn) ==> Completed(n, turn)[name] == CompletedField(name, n, turn).value
  {
    hide CompletedField;
  }

  /**
   A completed request, as the upstream reads it: the client's items, one for one, behind its
   instructions, its tools, reasoning, text controls and options as far as they go out, and for the
   rest what the pool says itself.
   */
  lemma CompletedRequestSays(payload: Record, turn: Turn, draw: nat -> nat)
    ensures var read := ReadDocument(Text(CompletedTree(Normalize(payload), turn, draw), false));
      && read.Some? && read.value.Obj? && "input" in read.value.members
      && InputSent(payload, read.value.members["input"], turn) && OthersSent(payload, read.value.members, turn)
  {
    hide *;
    var n := Normalize(payload);
    CompletedTreeValue(n, turn, draw);
    ReadDocumentText(CompletedTree(n, turn, draw), false);
    CompletedKeys(n, turn);
    InputIs(payload, turn);
    OthersAre(payload, turn);
  }

  /** What normalization leaves under a name. */
  lemma LeftIs(payload: Record, name: string)
    ensures Get(Obj(Normalize(payload).payload), name) == if name in payload then EditMember(name, payload[name]) else None
  {
    hide EditMember;
  }

  lemma ToolsAre(payload: Record, turn: Turn)
    ensures ToolsSent(payload, Completed(Normalize(payload), turn))
  {
    hide Completed, Normalize, ToolSent, NormalizeTool;
    var n := Normalize(payload);
    FieldIs(n, turn, WIRE_ORDER[4]);
    LeftIs(payload, "tools");
    assert CompletedField("tools", n, turn) == match Get(Obj(n.payload), "tools") case Some(Arr(tools)) => Some(Arr(tools)) case _ => None;
    if "tools" in payload && payload["tools"].Arr? {
      forall i | 0 <= i < |payload["tools"].items|
        ensures ToolSent(payload["tools"].items[i], NormalizeTool(payload["tools"].items[i]))
      {
        ToolIs(payload["tools"].items[i]);
      }
    }
  }

  lemma ReasoningIs(payload: Record, turn: Turn)
    ensures ReasoningSent(payload, Completed(Normalize(payload), turn), turn)
  {
    hide Completed, Normalize;
    var n := Normalize(payload);
    FieldIs(n, turn, WIRE_ORDER[7]);
    LeftIs(payload, "reasoning");
    assert CompletedField("reasoning", n, turn) == Some(CompletedReasoning(n, turn));
  }

  lemma TextIs(payload: Record, turn: Turn)
    ensures TextSent(payload, Completed(Normalize(payload), turn), turn)
  {
    hide Completed, Normalize;
    var n := Normalize(payload);
    FieldIs(n, turn, WIRE_ORDER[12]);
    LeftIs(payload, "text");
    assert CompletedField("text", n, turn) == CompletedText(n, turn);
    assert "text" in payload ==> EditMember("text", payload["text"]) == EditText(payload["text"]);
  }

  lemma OptionsAre(payload: Record, turn: Turn)
    ensures OptionsSent(payload, Completed(Normalize(payload), turn))
  {
    hide Completed, Normalize;
    var n := Normalize(payload);
    FieldIs(n, turn, WIRE_ORDER[9]);
    LeftIs(payload, "stream_options");
    assert CompletedField("stream_options", n, turn) == Get(Obj(n.payload), "stream_options");
    if "stream_options" in payload && payload["stream_options"].Obj? {
      var given := payload["stream_options"].members;
      assert EditMember("stream_options", payload["stream_options"]) == EditStreamOptions(payload["stream_options"]);
      var kept := map k | k in given && k == "reasoning_summary_delivery" :: given[k];
      if "reasoning_summary_delivery" in given {
        assert "reasoning_summary_delivery" in kept;
        assert kept == map["reasoning_summary_delivery" := given["reasoning_summary_delivery"]];
      } else {
        assert kept == map[];
      }
    }
  }

  predicate TierSent(payload: Record, sent: Record)
  {
    SentIf(payload, sent, "service_tier",
           "service_tier" in payload && payload["service_tier"] != Str("auto") && payload["service_tier"] != Str("default"))
  }

  lemma TierIs(payload: Record, turn: Turn)
    ensures TierSent(payload, Completed(Normalize(payload), turn))
  {
    hide Completed, Normalize;
    var n := Normalize(payload);
    FieldIs(n, turn, WIRE_ORDER[2]);
    LeftIs(payload, "service_tier");
    assert CompletedField("service_tier", n, turn) == Get(Obj(n.payload), "service_tier");
  }

  predicate ParallelSent(payload: Record, sent: Record, turn: Turn)
  {
    Says(sent, "parallel_tool_calls",
         if "parallel_tool_calls" in payload && payload["parallel_tool_calls"].Bool? then payload["parallel_tool_calls"]
         else Bool(turn.defaults.parallel))
  }

  lemma ParallelIs(payload: Record, turn: Turn)
    ensures ParallelSent(payload, Completed(Normalize(payload), turn), turn)
  {
    hide Completed, Normalize;
    FieldIs(Normalize(payload), turn, WIRE_ORDER[6]);
    LeftIs(payload, "parallel_tool_calls");
  }

  predicate IncludeSent(payload: Record, sent: Record)
  {
    Says(sent, "include",
         if "include" in payload && payload["include"].Arr? then payload["include"] else Arr([Str("reasoning.encrypted_content")]))
  }

  lemma IncludeIs(payload: Record, turn: Turn)
    ensures IncludeSent(payload, Completed(Normalize(payload), turn))
  {
    hide Completed, Normalize;
    FieldIs(Normalize(payload), turn, WIRE_ORDER[10]);
    LeftIs(payload, "include");
  }

  lemma OwnAre(n: Normalized, turn: Turn)
    ensures OwnSent(Completed(n, turn), turn)
  {
    hide Completed, CompletedField;
    FieldIs(n, turn, WIRE_ORDER[0]);
    FieldIs(n, turn, WIRE_ORDER[1]);
    FieldIs(n, turn, WIRE_ORDER[5]);
    FieldIs(n, turn, WIRE_ORDER[8]);
    FieldIs(n, turn, WIRE_ORDER[11]);
    FieldIs(n, turn, WIRE_ORDER[13]);
    FixedFields(n, turn);
    NamedFields(n, turn);
  }

  lemma FixedFields(n: Normalized, turn: Turn)
    ensures CompletedField("stream", n, turn) == Some(Bool(true)) && CompletedField("store", n, turn) == Some(Bool(false))
    ensures CompletedField("tool_choice", n, turn) == Some(Str("auto"))
  {
  }

  lemma NamedFields(n: Normalized, turn: Turn)
    ensures CompletedField("model", n, turn) == Some(Str(turn.model))
    ensures CompletedField("prompt_cache_key", n, turn) == Some(Str(turn.threadId))
    ensures CompletedField("client_metadata", n, turn) == Some(Obj(ClientMetadata(turn)))
  {
    hide ClientMetadata;
  }

  lemma OthersAre(payload: Record, turn: Turn)
    ensures OthersSent(payload, Completed(Normalize(payload), turn), turn)
  {
    hide Normalize, OwnSent, ToolsSent, ReasoningSent, TextSent, OptionsSent, TierSent, ParallelSent, IncludeSent, CompletedField;
    OwnAre(Normalize(payload), turn);
    ToolsAre(payload, turn);
    ReasoningIs(payload, turn);
    TextIs(payload, turn);
    OptionsAre(payload, turn);
    TierIs(payload, turn);
    ParallelIs(payload, turn);
    IncludeIs(payload, turn);
  }
}
