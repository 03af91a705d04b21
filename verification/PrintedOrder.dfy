/**
 In which order the printers write the members of every object, at every depth.
 */
module PrintedOrder {
  import opened Basics
  import opened Json
  import opened CodexPrinter

  // ---- orders of keys ----

  /** serde_json's order. */
  ghost predicate Ascending(keys: seq<string>)
  {
    forall i, j :: 0 <= i < j < |keys| ==> Leq(keys[i], keys[j])
  }

  /** One name stands before another in a list. */
  predicate Precedes(list: seq<string>, a: string, b: string)
  {
    exists p, q :: 0 <= p < q < |list| && list[p] == a && list[q] == b
  }

  /** The names of a list come first, in its order; the others follow in serde_json's. */
  ghost predicate ListedFirst(keys: seq<string>, list: seq<string>)
  {
    forall i, j :: 0 <= i < j < |keys| ==>
      && (keys[j] in list ==> keys[i] in list && !Precedes(list, keys[j], keys[i]))
      && (keys[i] !in list ==> Leq(keys[i], keys[j]))
  }

  lemma OrderIs(keys: set<string>, list: seq<string>)
    requires Distinct(list)
    ensures ListedFirst(KeyOrder(keys, list), list)
  {
    hide KeyOrder, Leq, IndexOf;
    var all := KeyOrder(keys, list);
    forall i, j | 0 <= i < j < |all|
      ensures all[j] in list ==> all[i] in list && !Precedes(list, all[j], all[i])
      ensures all[i] !in list ==> Leq(all[i], all[j])
    {
      KeyOrderPositions(keys, list, i, j);
      if all[j] in list {
        NotBefore(list, all[i], all[j]);
      }
    }
  }

  lemma NotBefore(list: seq<string>, a: string, b: string)
    requires Distinct(list) && a in list && b in list && IndexOf(list, a) < IndexOf(list, b)
    ensures !Precedes(list, b, a)
  {
  }

  // ---- layouts ----

  /** As serde_json writes it, at every depth. */
  ghost predicate SerdeOrdered(t: Tree)
  {
    match t
    case ObjTree(ms) => Ascending(Keys(ms)) && forall i :: 0 <= i < |ms| ==> SerdeOrdered(ms[i].tree)
    case ArrTree(items) => forall i :: 0 <= i < |items| ==> SerdeOrdered(items[i])
    case _ => true
  }

  /** An object with some names first; what it holds, and anything else, is as serde_json writes it. */
  ghost predicate FlatOrdered(t: Tree, list: seq<string>)
  {
    if t.ObjTree? then
      ListedFirst(Keys(t.members), list) && forall i :: 0 <= i < |t.members| ==> SerdeOrdered(t.members[i].tree)
    else SerdeOrdered(t)
  }

  ghost predicate SchemaOrdered(t: Tree)
    decreases t, 0
  {
    if !t.ObjTree? then SerdeOrdered(t)
    else
      && ListedFirst(Keys(t.members), SCHEMA_ORDER)
      && forall i :: 0 <= i < |t.members| ==> InSchema(t.members[i].name, t.members[i].tree)
  }

  /** A member of a schema: one schema, named ones, a list of them, or anything else. */
  ghost predicate InSchema(name: string, inner: Tree)
    decreases inner, 1
  {
    if (name == "items" || name == "additionalProperties") && inner.ObjTree? then SchemaOrdered(inner)
    else if (name == "properties" || name == "$defs" || name == "definitions") && inner.ObjTree? then
      && Ascending(Keys(inner.members))
      && forall j :: 0 <= j < |inner.members| ==> SchemaOrdered(inner.members[j].tree)
    else if (name == "anyOf" || name == "oneOf" || name == "allOf") && inner.ArrTree? then
      forall j :: 0 <= j < |inner.items| ==> SchemaOrdered(inner.items[j])
    else SerdeOrdered(inner)
  }

  /** The names an item of a type begins with. */
  predicate Begins(kind: string, list: seq<string>)
  {
    && (kind == "message" ==> list == MESSAGE_ORDER)
    && (kind == "function_call" ==> list == FUNCTION_CALL_ORDER)
    && (kind == "function_call_output" ==> list == FUNCTION_CALL_OUTPUT_ORDER)
    && (kind == "custom_tool_call" ==> list == CUSTOM_TOOL_CALL_ORDER)
    && (kind == "custom_tool_call_output" ==> list == CUSTOM_TOOL_CALL_OUTPUT_ORDER)
    && (kind == "reasoning" ==> list == REASONING_ORDER)
    && (kind !in NAMED_KINDS ==> list == ["type", "id"])
  }

  const NAMED_KINDS := {"message", "function_call", "function_call_output", "custom_tool_call", "custom_tool_call_output",
                        "reasoning"}

  /** An item of a type; the parts of a message in the order of parts. */
  ghost predicate ItemOrdered(t: Tree, kind: string)
  {
    if !t.ObjTree? then SerdeOrdered(t)
    else
      && (forall list :: Begins(kind, list) ==> ListedFirst(Keys(t.members), list))
      && forall i :: 0 <= i < |t.members| ==> InItem(kind, t.members[i].name, t.members[i].tree)
  }

  ghost predicate InItem(kind: string, name: string, inner: Tree)
  {
    if kind == "message" && name == "content" && inner.ArrTree? then
      forall j :: 0 <= j < |inner.items| ==> FlatOrdered(inner.items[j], PART_ORDER)
    else SerdeOrdered(inner)
  }

  /** A tool; its parameters are a schema. */
  ghost predicate ToolOrdered(t: Tree)
  {
    if !t.ObjTree? then SerdeOrdered(t)
    else
      && ListedFirst(Keys(t.members), TOOL_ORDER)
      && forall i :: 0 <= i < |t.members| ==> InTool(t.members[i].name, t.members[i].tree)
  }

  ghost predicate InTool(name: string, inner: Tree)
  {
    if name == "parameters" && inner.ObjTree? then SchemaOrdered(inner) else SerdeOrdered(inner)
  }

  ghost predicate TextOrdered(t: Tree)
  {
    && t.ObjTree? && ListedFirst(Keys(t.members), ["verbosity", "format"])
    && forall i :: 0 <= i < |t.members| ==> InText(t.members[i].name, t.members[i].tree)
  }

  ghost predicate InText(name: string, inner: Tree)
  {
    if name == "format" && inner.ObjTree? then FlatOrdered(inner, FORMAT_ORDER) else SerdeOrdered(inner)
  }

  // ---- what the printers make ----

  lemma {:induction false} SerdeIs(v: JSON)
    ensures SerdeOrdered(SerdeTree(v)) && (SerdeTree(v).ObjTree? <==> v.Obj?) && (SerdeTree(v).ArrTree? <==> v.Arr?)
    decreases v, 1
  {
    hide Leq;
    match v
    case Arr(items) => SerdeItemsAre(items);
    case Obj(members) =>
      SortedKeys(members.Keys);
      var keys := Sorted(members.Keys);
      forall i | 0 <= i < |keys| ensures SerdeOrdered(SerdeTree(members[keys[i]])) {
        SerdeIs(members[keys[i]]);
      }
    case _ =>
  }

  lemma {:induction false} SerdeItemsAre(items: seq<JSON>)
    ensures forall i :: 0 <= i < |items| ==> SerdeOrdered(SerdeItems(items)[i])
    decreases items, 0
  {
    hide SerdeOrdered;
    if items != [] {
      SerdeIs(items[0]);
      SerdeItemsAre(items[1..]);
    }
  }

  lemma FlatIs(v: JSON, list: seq<string>)
    requires Distinct(list)
    ensures FlatOrdered(ElementTree(v, list, Plain), list)
  {
    hide SerdeOrdered, ListedFirst, SerdeTree, KeyOrder;
    SerdeIs(v);
    if v.Obj? {
      OrderIs(v.members.Keys, list);
      var keys := KeyOrder(v.members.Keys, list);
      forall i | 0 <= i < |keys| ensures SerdeOrdered(FieldTree(Plain, keys[i], v.members[keys[i]])) {
        SerdeIs(v.members[keys[i]]);
      }
    }
  }

  lemma {:induction false} SchemaIs(v: JSON)
    ensures SchemaOrdered(ElementTree(v, SCHEMA_ORDER, SchemaField)) && (ElementTree(v, SCHEMA_ORDER, SchemaField).ObjTree? <==> v.Obj?)
    decreases v, 1
  {
    hide SerdeOrdered, ListedFirst, SerdeTree, KeyOrder, FieldTree;
    SerdeIs(v);
    if v.Obj? {
      SchemaFieldsDistinct();
      OrderIs(v.members.Keys, SCHEMA_ORDER);
      var keys := KeyOrder(v.members.Keys, SCHEMA_ORDER);
      forall i | 0 <= i < |keys| ensures InSchema(keys[i], FieldTree(SchemaField, keys[i], v.members[keys[i]])) {
        SchemaFieldIs(keys[i], v.members[keys[i]]);
      }
    }
  }

  lemma {:induction false} SchemaFieldIs(name: string, v: JSON)
    ensures InSchema(name, FieldTree(SchemaField, name, v))
    decreases v, 2
  {
    hide InSchema, FieldTree, SchemaOrdered, ElementTree;
    SerdeIs(v);
    SchemaIs(v);
    if v.Obj? {
      forall k | k in v.members ensures SchemaOrdered(ElementTree(v.members[k], SCHEMA_ORDER, SchemaField)) {
        SchemaIs(v.members[k]);
      }
    } else if v.Arr? {
      forall i | 0 <= i < |v.items| ensures SchemaOrdered(ElementTree(v.items[i], SCHEMA_ORDER, SchemaField)) {
        SchemaIs(v.items[i]);
      }
    }
    SchemaFieldOf(name, v);
  }

  /** Of schemas in their order. */
  lemma SchemaFieldOf(name: string, v: JSON)
    requires SerdeOrdered(SerdeTree(v)) && (SerdeTree(v).ObjTree? <==> v.Obj?) && (SerdeTree(v).ArrTree? <==> v.Arr?)
    requires v.Obj? ==> SchemaOrdered(ElementTree(v, SCHEMA_ORDER, SchemaField))
    requires v.Obj? ==> forall k :: k in v.members ==> SchemaOrdered(ElementTree(v.members[k], SCHEMA_ORDER, SchemaField))
    requires v.Arr? ==> forall i :: 0 <= i < |v.items| ==> SchemaOrdered(ElementTree(v.items[i], SCHEMA_ORDER, SchemaField))
    ensures InSchema(name, FieldTree(SchemaField, name, v))
  {
    hide SerdeOrdered, SchemaOrdered, SerdeTree, ElementTree, FieldTree, Ascending, SchemaMembers, ElementTrees, SchemaTree;
    ElementIs(v);
    SchemaFieldTree(name, v);
    if v.Obj? {
      NamedSchemas(v);
    }
  }

  /** What stands under a name of a schema. */
  lemma SchemaFieldTree(name: string, v: JSON)
    ensures FieldTree(SchemaField, name, v) ==
      if (name == "items" || name == "additionalProperties") && v.Obj? then SchemaTree(v)
      else if (name == "properties" || name == "$defs" || name == "definitions") && v.Obj? then
        SortedKeys(v.members.Keys);
        ObjTree(SchemaMembers(v, Sorted(v.members.Keys)))
      else if (name == "anyOf" || name == "oneOf" || name == "allOf") && v.Arr? then
        ArrTree(ElementTrees(v.items, SCHEMA_ORDER, SchemaField))
      else SerdeTree(v)
    ensures v.Obj? ==> SchemaTree(v).ObjTree?
  {
    hide SerdeTree, SchemaMembers, ElementTrees;
  }

  lemma NamedSchemas(v: JSON)
    requires v.Obj? && forall k :: k in v.members ==> SchemaOrdered(ElementTree(v.members[k], SCHEMA_ORDER, SchemaField))
    ensures forall k :: k in Sorted(v.members.Keys) ==> k in v.members
    ensures var ms := SchemaMembers(v, Sorted(v.members.Keys));
      Ascending(Keys(ms)) && forall j :: 0 <= j < |ms| ==> SchemaOrdered(ms[j].tree)
  {
    hide SchemaOrdered, ElementTree, Leq, Sorted;
    SortedKeys(v.members.Keys);
  }

  lemma ElementIs(v: JSON)
    ensures v.Obj? ==> ElementTree(v, SCHEMA_ORDER, SchemaField) == SchemaTree(v)
  {
  }

  /** An item's type, or the empty string. */
  function TypeName(item: JSON): string
  {
    if item.Obj? && "type" in item.members && item.members["type"].Str? then item.members["type"].s else ""
  }

  lemma BeginsIs(kind: string)
    ensures Begins(kind, ItemOrder(kind)) && forall list :: Begins(kind, list) ==> list == ItemOrder(kind)
  {
  }

  lemma ItemFieldIs(kind: string, name: string, v: JSON)
    ensures InItem(kind, name, FieldTree(ItemField(kind), name, v))
  {
    hide SerdeOrdered, FlatOrdered, SerdeTree, ElementTree;
    SerdeIs(v);
    if v.Arr? {
      PartFieldsDistinct();
      forall j | 0 <= j < |v.items| ensures FlatOrdered(ElementTree(v.items[j], PART_ORDER, Plain), PART_ORDER) {
        FlatIs(v.items[j], PART_ORDER);
      }
    }
  }

  lemma KindIs(item: JSON)
    ensures Kind(item) == TypeName(item)
  {
  }

  lemma ItemIs(item: JSON)
    ensures ItemOrdered(ItemTree(item), TypeName(item))
  {
    KindIs(item);
    hide TypeName, SerdeOrdered, ListedFirst, InItem, SerdeTree, KeyOrder, Begins, Kind, ItemOrder, FieldTree;
    SerdeIs(item);
    if item.Obj? {
      var kind := Kind(item);
      BeginsIs(kind);
      TablesDistinct(kind);
      OrderIs(item.members.Keys, ItemOrder(kind));
      var keys, t := KeyOrder(item.members.Keys, ItemOrder(kind)), OrderedTree(item, ItemOrder(kind), ItemField(kind));
      assert ItemTree(item) == t;
      forall i | 0 <= i < |keys| ensures InItem(kind, keys[i], FieldTree(ItemField(kind), keys[i], item.members[keys[i]])) {
        ItemFieldIs(kind, keys[i], item.members[keys[i]]);
      }
    }
  }

  lemma ToolFieldIs(name: string, v: JSON)
    ensures InTool(name, FieldTree(ToolField, name, v))
  {
    hide SerdeOrdered, SchemaOrdered, SerdeTree;
    SerdeIs(v);
    SchemaIs(v);
  }

  lemma ToolIs(tool: JSON)
    ensures ToolOrdered(ToolTree(tool))
  {
    hide SerdeOrdered, ListedFirst, InTool, SerdeTree, KeyOrder, FieldTree;
    SerdeIs(tool);
    if tool.Obj? {
      ToolFieldsDistinct();
      OrderIs(tool.members.Keys, TOOL_ORDER);
      var keys, t := KeyOrder(tool.members.Keys, TOOL_ORDER), OrderedTree(tool, TOOL_ORDER, ToolField);
      assert ToolTree(tool) == t;
      forall i | 0 <= i < |keys| ensures InTool(keys[i], FieldTree(ToolField, keys[i], tool.members[keys[i]])) {
        ToolFieldIs(keys[i], tool.members[keys[i]]);
      }
    }
  }

  lemma TextFieldIs(name: string, v: JSON)
    ensures InText(name, FieldTree(TextField, name, v))
  {
    hide SerdeOrdered, FlatOrdered, SerdeTree;
    ShortTablesDistinct();
    SerdeIs(v);
    FlatIs(v, FORMAT_ORDER);
  }

  lemma TextIs(text: JSON)
    requires text.Obj?
    ensures TextOrdered(TextControlsTree(text))
  {
    hide SerdeOrdered, ListedFirst, InText, SerdeTree, KeyOrder, FieldTree;
    ShortTablesDistinct();
    OrderIs(text.members.Keys, ["verbosity", "format"]);
    var keys := KeyOrder(text.members.Keys, ["verbosity", "format"]);
    forall i | 0 <= i < |keys| ensures InText(keys[i], FieldTree(TextField, keys[i], text.members[keys[i]])) {
      TextFieldIs(keys[i], text.members[keys[i]]);
    }
  }

  /**
   What is written for items, tools, schemas and text controls has the members of every object, at every
   depth, in the order Codex serializes them; whatever Codex gives no order is in serde_json's.
   */
  lemma PrintedInOrder(v: JSON)
    ensures ItemOrdered(ItemTree(v), TypeName(v)) && ToolOrdered(ToolTree(v))
    ensures SchemaOrdered(ElementTree(v, SCHEMA_ORDER, SchemaField)) && SerdeOrdered(SerdeTree(v))
    ensures v.Obj? ==> TextOrdered(TextControlsTree(v))
  {
    hide *;
    ItemIs(v);
    ToolIs(v);
    SchemaIs(v);
    SerdeIs(v);
    if v.Obj? {
      TextIs(v);
    }
  }
}
