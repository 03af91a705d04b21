/**
 The printers of completed requests, which write the members of every object in the order Codex
 serializes them: some named keys first, the others after them in serde_json's order.
 */
module CodexPrinter {
  import opened Basics
  import opened Json
  import opened JsonReader

  /** Which printer an object's members are handed to. */
  datatype Writer = Plain | ItemField(kind: string) | ToolField | SchemaField | TextField

  const MESSAGE_ORDER := ["type", "encrypted_content", "status", "id", "role", "content", "phase"]
  const FUNCTION_CALL_ORDER := ["type", "encrypted_content", "status", "id", "name", "namespace", "arguments",
                                "encrypted_function_args", "call_id"]
  const FUNCTION_CALL_OUTPUT_ORDER := ["type", "id", "call_id", "name", "namespace", "output"]
  const CUSTOM_TOOL_CALL_ORDER := ["type", "encrypted_content", "id", "status", "call_id", "name", "namespace", "input"]
  const CUSTOM_TOOL_CALL_OUTPUT_ORDER := ["type", "id", "call_id", "name", "output"]
  const REASONING_ORDER := ["type", "id", "summary", "content", "encrypted_content"]
  const PART_ORDER := ["type", "text", "image_url", "file_id", "detail", "audio_url", "annotations", "logprobs"]
  const TOOL_ORDER := ["type", "name", "description", "strict", "defer_loading", "parameters"]
  const SCHEMA_ORDER := ["$ref", "type", "description", "encrypted", "enum", "items", "minItems", "properties",
                         "required", "additionalProperties", "anyOf", "oneOf", "allOf", "$defs", "definitions"]
  const FORMAT_ORDER := ["type", "strict", "schema", "name"]

  function ItemOrder(kind: string): seq<string>
  {
    if kind == "message" then MESSAGE_ORDER
    else if kind == "function_call" then FUNCTION_CALL_ORDER
    else if kind == "function_call_output" then FUNCTION_CALL_OUTPUT_ORDER
    else if kind == "custom_tool_call" then CUSTOM_TOOL_CALL_ORDER
    else if kind == "custom_tool_call_output" then CUSTOM_TOOL_CALL_OUTPUT_ORDER
    else if kind == "reasoning" then REASONING_ORDER
    else ["type", "id"]
  }

  // ---- the order of keys ----

  /** The keys of `order` that are there. */
  function Listed(order: seq<string>, keys: set<string>): (r: seq<string>)
    ensures forall k :: k in r <==> k in order && k in keys
    ensures Distinct(order) ==> Distinct(r)
  {
    if order == [] then []
    else (if order[0] in keys then [order[0]] else []) + Listed(order[1..], keys)
  }

  lemma {:induction false} ListedGrows(order: seq<string>, i: nat, keys: set<string>)
    requires i < |order|
    ensures Listed(order[..0], keys) == []
    ensures Listed(order[..i + 1], keys) == Listed(order[..i], keys) + (if order[i] in keys then [order[i]] else [])
  {
    if i > 0 {
      ListedGrows(order[1..], i - 1, keys);
      assert order[..i + 1][1..] == order[1..][..i] && order[..i][1..] == order[1..][..i - 1];
      assert order[..i + 1][0] == order[0] == order[..i][0] && order[1..][i - 1] == order[i];
    } else {
      assert order[..1] == [order[0]] && order[..1][1..] == [];
    }
  }

  /** The keys that `order` does not name, as they come. */
  function Unlisted(keys: seq<string>, order: seq<string>): (r: seq<string>)
    ensures forall k :: k in r <==> k in keys && k !in order
    ensures Distinct(keys) ==> Distinct(r)
  {
    if keys == [] then []
    else (if keys[0] in order then [] else [keys[0]]) + Unlisted(keys[1..], order)
  }

  function KeyOrder(keys: set<string>, order: seq<string>): (r: seq<string>)
    ensures forall k :: k in r <==> k in keys
  {
    SortedKeys(keys);
    Listed(order, keys) + Unlisted(Sorted(keys), order)
  }

  /** Every key is written, and only once. */
  lemma KeyOrderComplete(keys: set<string>, order: seq<string>)
    requires Distinct(order)
    ensures Distinct(KeyOrder(keys, order)) && forall k :: k in KeyOrder(keys, order) <==> k in keys
  {
    SortedKeys(keys);
    var l, u := Listed(order, keys), Unlisted(Sorted(keys), order);
    forall i, j | 0 <= i < j < |l + u| ensures (l + u)[i] != (l + u)[j] {
      if i < |l| && j >= |l| {
        assert (l + u)[i] in l && (l + u)[j] in u;
      }
    }
  }

  lemma MessageFieldsDistinct()
    ensures Distinct(MESSAGE_ORDER)
  {
  }

  lemma FunctionCallFieldsDistinct()
    ensures Distinct(FUNCTION_CALL_ORDER)
  {
  }

  lemma FunctionCallOutputFieldsDistinct()
    ensures Distinct(FUNCTION_CALL_OUTPUT_ORDER)
  {
  }

  lemma CustomToolCallFieldsDistinct()
    ensures Distinct(CUSTOM_TOOL_CALL_ORDER)
  {
  }

  lemma CustomToolCallOutputFieldsDistinct()
    ensures Distinct(CUSTOM_TOOL_CALL_OUTPUT_ORDER)
  {
  }

  lemma ReasoningFieldsDistinct()
    ensures Distinct(REASONING_ORDER)
  {
  }

  lemma PartFieldsDistinct()
    ensures Distinct(PART_ORDER)
  {
  }

  lemma ToolFieldsDistinct()
    ensures Distinct(TOOL_ORDER)
  {
  }

  lemma SchemaFieldsDistinct()
    ensures Distinct(SCHEMA_ORDER)
  {
  }

  lemma ShortTablesDistinct()
    ensures Distinct(["type", "id"]) && Distinct(FORMAT_ORDER)
    ensures Distinct(["verbosity", "format"]) && Distinct(["effort", "summary"]) && Distinct(["effort"])
  {
  }

  lemma TablesDistinct(kind: string)
    ensures Distinct(ItemOrder(kind)) && Distinct(PART_ORDER) && Distinct(TOOL_ORDER)
    ensures Distinct(SCHEMA_ORDER) && Distinct(FORMAT_ORDER)
    ensures Distinct(["verbosity", "format"]) && Distinct(["effort", "summary"]) && Distinct(["effort"])
  {
    hide Distinct;
    MessageFieldsDistinct();
    FunctionCallFieldsDistinct();
    FunctionCallOutputFieldsDistinct();
    CustomToolCallFieldsDistinct();
    CustomToolCallOutputFieldsDistinct();
    ReasoningFieldsDistinct();
    PartFieldsDistinct();
    ToolFieldsDistinct();
    SchemaFieldsDistinct();
    ShortTablesDistinct();
  }

  // ---- the layouts ----

  predicate IsSchemaChild(key: string)
  {
    key == "items" || key == "additionalProperties"
  }

  predicate IsSchemaMap(key: string)
  {
    key == "properties" || key == "$defs" || key == "definitions"
  }

  predicate IsSchemaList(key: string)
  {
    key == "anyOf" || key == "oneOf" || key == "allOf"
  }

  function OrderedTree(v: JSON, order: seq<string>, w: Writer): (t: Tree)
    requires v.Obj?
    ensures t.ObjTree? && Keys(t.members) == KeyOrder(v.members.Keys, order)
    decreases v, 1
  {
    ObjTree(FieldTrees(v, KeyOrder(v.members.Keys, order), w))
  }

  function FieldTrees(v: JSON, keys: seq<string>, w: Writer): (r: seq<Member>)
    requires v.Obj? && forall k :: k in keys ==> k in v.members
    ensures Keys(r) == keys
    ensures forall i :: 0 <= i < |keys| ==> r[i].tree == FieldTree(w, keys[i], v.members[keys[i]])
    decreases v, 0, |keys|
  {
    if keys == [] then []
    else
      var first, rest := Member(keys[0], FieldTree(w, keys[0], v.members[keys[0]])), FieldTrees(v, keys[1..], w);
      KeysCons(first, rest);
      [first] + rest
  }

  /** What a printer makes of one member's value. */
  function FieldTree(w: Writer, key: string, value: JSON): Tree
    decreases value, 3
  {
    if w.ItemField? && w.kind == "message" && key == "content" && value.Arr? then
      ArrTree(ElementTrees(value.items, PART_ORDER, Plain))
    else if w.ToolField? && key == "parameters" && value.Obj? then SchemaTree(value)
    else if w.TextField? && key == "format" && value.Obj? then OrderedTree(value, FORMAT_ORDER, Plain)
    else if w.SchemaField? && IsSchemaChild(key) && value.Obj? then SchemaTree(value)
    else if w.SchemaField? && IsSchemaMap(key) && value.Obj? then
      SortedKeys(value.members.Keys);
      ObjTree(SchemaMembers(value, Sorted(value.members.Keys)))
    else if w.SchemaField? && IsSchemaList(key) && value.Arr? then
      ArrTree(ElementTrees(value.items, SCHEMA_ORDER, SchemaField))
    else SerdeTree(value)
  }

  function SchemaTree(v: JSON): Tree
    requires v.Obj?
    decreases v, 2
  {
    OrderedTree(v, SCHEMA_ORDER, SchemaField)
  }

  /** An object in the given order; anything else as serde_json writes it. */
  function ElementTree(v: JSON, order: seq<string>, w: Writer): Tree
    decreases v, 2
  {
    if v.Obj? then OrderedTree(v, order, w) else SerdeTree(v)
  }

  function ElementTrees(vs: seq<JSON>, order: seq<string>, w: Writer): (r: seq<Tree>)
    ensures |r| == |vs| && forall i :: 0 <= i < |vs| ==> r[i] == ElementTree(vs[i], order, w)
    decreases vs, 0
  {
    if vs == [] then []
    else
      var first, rest := ElementTree(vs[0], order, w), ElementTrees(vs[1..], order, w);
      assert forall i :: 1 <= i < |vs| ==> vs[i] == vs[1..][i - 1];
      [first] + rest
  }

  function SchemaMembers(v: JSON, keys: seq<string>): (r: seq<Member>)
    requires v.Obj? && forall k :: k in keys ==> k in v.members
    ensures Keys(r) == keys
    ensures forall i :: 0 <= i < |keys| ==> r[i].tree == ElementTree(v.members[keys[i]], SCHEMA_ORDER, SchemaField)
    decreases v, 0, |keys|
  {
    if keys == [] then []
    else
      var first, rest := Member(keys[0], ElementTree(v.members[keys[0]], SCHEMA_ORDER, SchemaField)), SchemaMembers(v, keys[1..]);
      KeysCons(first, rest);
      [first] + rest
  }

  function ItemTree(item: JSON): Tree
  {
    ElementTree(item, ItemOrder(Kind(item)), ItemField(Kind(item)))
  }

  /** An item's type, or the empty string. */
  function Kind(item: JSON): string
  {
    if item.Obj? && "type" in item.members && item.members["type"].Str? then item.members["type"].s else ""
  }

  function ToolTree(tool: JSON): Tree
  {
    ElementTree(tool, TOOL_ORDER, ToolField)
  }

  function TextControlsTree(text: JSON): Tree
    requires text.Obj?
  {
    OrderedTree(text, ["verbosity", "format"], TextField)
  }

  // ---- no layout changes the value ----

  lemma {:induction false} OrderedTreeValue(v: JSON, order: seq<string>, w: Writer)
    requires v.Obj? && Distinct(order)
    ensures Value(OrderedTree(v, order, w)) == v
    decreases v, 1
  {
    hide Keys, KeyOrder, FieldTree;
    var keys := KeyOrder(v.members.Keys, order);
    KeyOrderComplete(v.members.Keys, order);
    forall k | k in v.members ensures Value(FieldTree(w, k, v.members[k])) == v.members[k] {
      FieldTreeValue(w, k, v.members[k]);
    }
    MembersOf(FieldTrees(v, keys, w), v.members);
  }

  lemma {:induction false} FieldTreeValue(w: Writer, key: string, value: JSON)
    ensures Value(FieldTree(w, key, value)) == value
    decreases value, 3
  {
    hide OrderedTree, SerdeTree, ElementTrees, SchemaMembers, Sorted, Members;
    TablesDistinct("");
    SerdeTreeValue(value);
    if value.Obj? {
      OrderedTreeValue(value, SCHEMA_ORDER, SchemaField);
      OrderedTreeValue(value, FORMAT_ORDER, Plain);
      SortedKeys(value.members.Keys);
      SchemaMembersValue(value);
    } else if value.Arr? {
      ElementTreesValue(value.items, PART_ORDER, Plain);
      ElementTreesValue(value.items, SCHEMA_ORDER, SchemaField);
    }
  }

  lemma {:induction false} ElementTreeValue(v: JSON, order: seq<string>, w: Writer)
    requires Distinct(order)
    ensures Value(ElementTree(v, order, w)) == v
    decreases v, 2
  {
    if v.Obj? {
      OrderedTreeValue(v, order, w);
    } else {
      SerdeTreeValue(v);
    }
  }

  lemma {:induction false} ElementTreesValue(vs: seq<JSON>, order: seq<string>, w: Writer)
    requires Distinct(order)
    ensures Values(ElementTrees(vs, order, w)) == vs
    decreases vs, 0
  {
    if vs != [] {
      ElementTreeValue(vs[0], order, w);
      ElementTreesValue(vs[1..], order, w);
    }
  }

  lemma {:induction false} SchemaMembersValue(v: JSON)
    requires v.Obj? && forall k :: k in Sorted(v.members.Keys) ==> k in v.members
    ensures Members(SchemaMembers(v, Sorted(v.members.Keys))) == v.members
    decreases v, 0
  {
    hide Keys;
    TablesDistinct("");
    SortedKeys(v.members.Keys);
    forall k | k in v.members ensures Value(ElementTree(v.members[k], SCHEMA_ORDER, SchemaField)) == v.members[k] {
      ElementTreeValue(v.members[k], SCHEMA_ORDER, SchemaField);
    }
    MembersOf(SchemaMembers(v, Sorted(v.members.Keys)), v.members);
  }

  /** What each printer writes reads back as the value it was given. */
  lemma PrintersReadBack(v: JSON)
    ensures ReadDocument(Text(ItemTree(v), false)) == Some(v)
    ensures ReadDocument(Text(ToolTree(v), false)) == Some(v)
    ensures v.Obj? ==> ReadDocument(Text(SchemaTree(v), false)) == Some(v)
    ensures v.Obj? ==> ReadDocument(Text(TextControlsTree(v), false)) == Some(v)
  {
    TablesDistinct(Kind(v));
    ElementTreeValue(v, ItemOrder(Kind(v)), ItemField(Kind(v)));
    ElementTreeValue(v, TOOL_ORDER, ToolField);
    ReadDocumentText(ItemTree(v), false);
    ReadDocumentText(ToolTree(v), false);
    if v.Obj? {
      OrderedTreeValue(v, SCHEMA_ORDER, SchemaField);
      OrderedTreeValue(v, ["verbosity", "format"], TextField);
      ReadDocumentText(SchemaTree(v), false);
      ReadDocumentText(TextControlsTree(v), false);
    }
  }

  // ---- where the keys stand ----

  function IndexOf(order: seq<string>, k: string): (i: nat)
    requires k in order
    ensures i < |order| && order[i] == k
  {
    if order[0] == k then 0 else 1 + IndexOf(order[1..], k)
  }

  lemma {:induction false} ListedInOrder(order: seq<string>, keys: set<string>)
    requires Distinct(order)
    ensures forall i, j :: 0 <= i < j < |Listed(order, keys)| ==>
      IndexOf(order, Listed(order, keys)[i]) < IndexOf(order, Listed(order, keys)[j])
  {
    if order != [] {
      var rest := Listed(order[1..], keys);
      ListedInOrder(order[1..], keys);
      assert forall k :: k in rest ==> k in order[1..] && k != order[0] && IndexOf(order, k) == 1 + IndexOf(order[1..], k);
    }
  }

  lemma {:induction false} UnlistedInOrder(keys: seq<string>, order: seq<string>)
    requires forall i, j :: 0 <= i < j < |keys| ==> Leq(keys[i], keys[j])
    ensures forall i, j :: 0 <= i < j < |Unlisted(keys, order)| ==> Leq(Unlisted(keys, order)[i], Unlisted(keys, order)[j])
  {
    if keys != [] {
      UnlistedInOrder(keys[1..], order);
      forall k | k in Unlisted(keys[1..], order) ensures Leq(keys[0], k) {
        var m :| 0 <= m < |keys[1..]| && keys[1..][m] == k;
        assert keys[m + 1] == k;
      }
    }
  }

  /** The named keys come first, in the named order, and the others after them, sorted. */
  lemma KeyOrderPositions(keys: set<string>, order: seq<string>, i: nat, j: nat)
    requires Distinct(order) && i < j < |KeyOrder(keys, order)|
    ensures var a, b := KeyOrder(keys, order)[i], KeyOrder(keys, order)[j];
      && (b in order ==> a in order && IndexOf(order, a) < IndexOf(order, b))
      && (a !in order ==> b !in order && Leq(a, b))
  {
    hide Leq, IndexOf, Sorted, Listed, Unlisted;
    SortedKeys(keys);
    ListedInOrder(order, keys);
    UnlistedInOrder(Sorted(keys), order);
    var l, u := Listed(order, keys), Unlisted(Sorted(keys), order);
    if j < |l| {
      assert l[i] in l && l[j] in l;
    } else {
      assert u[j - |l|] in u;
      if i < |l| {
        assert l[i] in l;
      } else {
        assert u[i - |l|] in u;
      }
    }
  }

  // ---- the printers ----

  /** serde_json's own serialization of a value. */
  method WriteJson(out: Buffer, value: JSON)
    modifies out
    ensures out.text == old(out.text) + Text(SerdeTree(value), false)
  {
    out.Extend(Text(SerdeTree(value), false));
  }

  method WriteString(out: Buffer, text: string)
    modifies out
    ensures out.text == old(out.text) + StringText(text, false)
  {
    out.Extend(StringText(text, false));
  }

  method WriteOrderedWith(out: Buffer, obj: JSON, order: seq<string>, w: Writer)
    requires obj.Obj?
    modifies out
    ensures out.text == old(out.text) + Text(OrderedTree(obj, order, w), false)
    decreases obj, 1
  {
    hide *;
    out.Push('{');
    var first := true;
    var keys := KeyOrder(obj.members.Keys, order);
    ghost var start, ms := out.text, FieldTrees(obj, keys, w);
    NothingYet();
    assert ms[..0] == [];
    for index := 0 to |keys|
      invariant first == (index == 0) && |ms| == |keys|
      invariant out.text == start + MembersText(ms[..index], false)
    {
      var key := keys[index];
      var value := obj.members[key];
      FieldTreesTake(obj, keys, w, index);
      MembersAppend(ms[..index], Member(key, FieldTree(w, key, value)), false);
      if !first {
        out.Push(',');
      }
      first := false;
      WriteMember(out, w, key, value);
    }
    assert ms[..|keys|] == ms;
    out.Push('}');
    OrderedText(obj, order, w);
  }

  method WriteMember(out: Buffer, w: Writer, key: string, value: JSON)
    modifies out
    ensures out.text == old(out.text) + MemberText(Member(key, FieldTree(w, key, value)), false)
    decreases value, 4
  {
    hide Text, FieldTree, StringText;
    WriteString(out, key);
    out.Push(':');
    WriteField(out, w, key, value);
  }

  method WriteField(out: Buffer, w: Writer, key: string, value: JSON)
    modifies out
    ensures out.text == old(out.text) + Text(FieldTree(w, key, value), false)
    decreases value, 3
  {
    hide Text, OrderedTree, SerdeTree, ElementTrees, SchemaMembers;
    if w.ItemField? && w.kind == "message" && key == "content" && value.Arr? {
      WriteElements(out, value.items, PART_ORDER, Plain);
    } else if w.ToolField? && key == "parameters" && value.Obj? {
      WriteSchema(out, value);
    } else if w.TextField? && key == "format" && value.Obj? {
      WriteOrderedWith(out, value, FORMAT_ORDER, Plain);
    } else if w.SchemaField? && IsSchemaChild(key) && value.Obj? {
      WriteSchema(out, value);
    } else if w.SchemaField? && IsSchemaMap(key) && value.Obj? {
      SortedKeys(value.members.Keys);
      WriteSchemaMap(out, value);
    } else if w.SchemaField? && IsSchemaList(key) && value.Arr? {
      WriteElements(out, value.items, SCHEMA_ORDER, SchemaField);
    } else {
      WriteJson(out, value);
    }
  }

  method WriteSchema(out: Buffer, schema: JSON)
    requires schema.Obj?
    modifies out
    ensures out.text == old(out.text) + Text(SchemaTree(schema), false)
    decreases schema, 2
  {
    WriteOrderedWith(out, schema, SCHEMA_ORDER, SchemaField);
  }

  method WriteElement(out: Buffer, value: JSON, order: seq<string>, w: Writer)
    modifies out
    ensures out.text == old(out.text) + Text(ElementTree(value, order, w), false)
    decreases value, 2
  {
    hide Text, OrderedTree, SerdeTree;
    if value.Obj? {
      WriteOrderedWith(out, value, order, w);
    } else {
      WriteJson(out, value);
    }
  }

  method WriteElements(out: Buffer, values: seq<JSON>, order: seq<string>, w: Writer)
    modifies out
    ensures out.text == old(out.text) + Text(ArrTree(ElementTrees(values, order, w)), false)
    decreases values, 0
  {
    hide *;
    out.Push('[');
    ghost var start, ts := out.text, ElementTrees(values, order, w);
    NothingYet();
    assert ts[..0] == [];
    for index := 0 to |values|
      invariant |ts| == |values| && out.text == start + ItemsText(ts[..index], false)
    {
      assert ts[..index + 1] == ts[..index] + [ElementTree(values[index], order, w)];
      ItemsAppend(ts[..index], ElementTree(values[index], order, w), false);
      if index > 0 {
        out.Push(',');
      }
      WriteElement(out, values[index], order, w);
    }
    assert ts[..|values|] == ts;
    out.Push(']');
    ArrayText(ts);
  }

  method WriteSchemaMap(out: Buffer, obj: JSON)
    requires obj.Obj? && forall k :: k in Sorted(obj.members.Keys) ==> k in obj.members
    modifies out
    ensures out.text == old(out.text) + Text(ObjTree(SchemaMembers(obj, Sorted(obj.members.Keys))), false)
    decreases obj, 1
  {
    hide *;
    out.Push('{');
    var keys := Sorted(obj.members.Keys);
    ghost var start, ms := out.text, SchemaMembers(obj, keys);
    NothingYet();
    assert ms[..0] == [];
    for index := 0 to |keys|
      invariant |ms| == |keys| && out.text == start + MembersText(ms[..index], false)
    {
      var value := obj.members[keys[index]];
      SchemaMembersTake(obj, keys, index);
      MembersAppend(ms[..index], Member(keys[index], ElementTree(value, SCHEMA_ORDER, SchemaField)), false);
      if index > 0 {
        out.Push(',');
      }
      ghost var before := out.text;
      WriteString(out, keys[index]);
      out.Push(':');
      WriteElement(out, value, SCHEMA_ORDER, SchemaField);
      OneMember(before, keys[index], ElementTree(value, SCHEMA_ORDER, SchemaField));
    }
    assert ms[..|keys|] == ms;
    out.Push('}');
    ObjectText(ms);
  }

  method WriteItem(out: Buffer, item: JSON)
    modifies out
    ensures out.text == old(out.text) + Text(ItemTree(item), false)
  {
    var kind := Kind(item);
    WriteElement(out, item, ItemOrder(kind), ItemField(kind));
  }

  method WriteTool(out: Buffer, tool: JSON)
    modifies out
    ensures out.text == old(out.text) + Text(ToolTree(tool), false)
  {
    WriteElement(out, tool, TOOL_ORDER, ToolField);
  }

  method WriteTextControls(out: Buffer, text: JSON)
    requires text.Obj?
    modifies out
    ensures out.text == old(out.text) + Text(TextControlsTree(text), false)
  {
    WriteOrderedWith(out, text, ["verbosity", "format"], TextField);
  }

  // ---- steps of the loops above ----

  lemma NothingYet()
    ensures MembersText([], false) == "" && ItemsText([], false) == ""
  {
  }

  lemma ArrayText(ts: seq<Tree>)
    ensures Text(ArrTree(ts), false) == "[" + ItemsText(ts, false) + "]"
  {
  }

  lemma ObjectText(ms: seq<Member>)
    ensures Text(ObjTree(ms), false) == "{" + MembersText(ms, false) + "}"
  {
  }

  lemma OneMember(before: string, name: string, t: Tree)
    ensures before + StringText(name, false) + [':'] + Text(t, false) == before + MemberText(Member(name, t), false)
  {
    hide StringText, Text;
  }

  lemma OrderedText(v: JSON, order: seq<string>, w: Writer)
    requires v.Obj?
    ensures Text(OrderedTree(v, order, w), false)
         == "{" + MembersText(FieldTrees(v, KeyOrder(v.members.Keys, order), w), false) + "}"
  {
    hide KeyOrder, FieldTrees;
  }

  lemma {:induction false} FieldTreesTake(v: JSON, keys: seq<string>, w: Writer, i: nat)
    requires v.Obj? && (forall k :: k in keys ==> k in v.members) && i < |keys|
    ensures FieldTrees(v, keys, w)[..i + 1]
         == FieldTrees(v, keys, w)[..i] + [Member(keys[i], FieldTree(w, keys[i], v.members[keys[i]]))]
  {
    hide Keys, FieldTree;
    var first, rest := Member(keys[0], FieldTree(w, keys[0], v.members[keys[0]])), FieldTrees(v, keys[1..], w);
    assert FieldTrees(v, keys, w) == [first] + rest;
    if i > 0 {
      FieldTreesTake(v, keys[1..], w, i - 1);
      TakeOneMore(first, rest, i, Member(keys[i], FieldTree(w, keys[i], v.members[keys[i]])));
    }
  }

  lemma {:induction false} SchemaMembersTake(v: JSON, keys: seq<string>, i: nat)
    requires v.Obj? && (forall k :: k in keys ==> k in v.members) && i < |keys|
    ensures SchemaMembers(v, keys)[..i + 1] == SchemaMembers(v, keys)[..i]
      + [Member(keys[i], ElementTree(v.members[keys[i]], SCHEMA_ORDER, SchemaField))]
  {
    hide Keys, ElementTree;
    var first := Member(keys[0], ElementTree(v.members[keys[0]], SCHEMA_ORDER, SchemaField));
    var rest := SchemaMembers(v, keys[1..]);
    assert SchemaMembers(v, keys) == [first] + rest;
    if i > 0 {
      SchemaMembersTake(v, keys[1..], i - 1);
      TakeOneMore(first, rest, i, Member(keys[i], ElementTree(v.members[keys[i]], SCHEMA_ORDER, SchemaField)));
    }
  }
}
