/**
 In which order a completed request is written, from its members down.
 */
module CompletedOrder {
  import opened Basics
  import opened Json
  import opened CodexPrinter
  import opened PrintedOrder
  import opened RequestGate
  import opened RequestCompletion

  /** An item as its own type has it. */
  ghost predicate ItemInOrder(t: Tree)
  {
    ItemOrdered(t, TypeName(Value(t)))
  }

  /** A member of a request, in the order Codex writes what it holds; the metadata come in any. */
  ghost predicate MemberInOrder(name: string, t: Tree)
  {
    if name == "input" && t.ArrTree? then forall i :: 0 <= i < |t.items| ==> ItemInOrder(t.items[i])
    else if name == "tools" && t.ArrTree? then forall i :: 0 <= i < |t.items| ==> ToolOrdered(t.items[i])
    else if name == "reasoning" && t.ObjTree? then FlatOrdered(t, ["effort", "summary"])
    else if name == "text" && t.ObjTree? then TextOrdered(t)
    else name == "client_metadata" || SerdeOrdered(t)
  }

  /** The members in the order of the wire, each with what it holds in order. */
  ghost predicate RequestInOrder(t: Tree)
  {
    && t.ObjTree?
    && (forall i :: 0 <= i < |t.members| ==> t.members[i].name in WIRE_ORDER)
    && (forall i, j :: 0 <= i < j < |t.members| ==> !Precedes(WIRE_ORDER, t.members[j].name, t.members[i].name))
    && forall i :: 0 <= i < |t.members| ==> MemberInOrder(t.members[i].name, t.members[i].tree)
  }

  lemma ItemsInOrder(items: seq<JSON>)
    ensures forall i :: 0 <= i < |items| ==> ItemInOrder(ItemTree(items[i])) && ToolOrdered(ToolTree(items[i]))
  {
    hide ItemOrdered, ToolOrdered, ItemTree, ToolTree, Value;
    forall i | 0 <= i < |items| ensures ItemInOrder(ItemTree(items[i])) && ToolOrdered(ToolTree(items[i])) {
      ItemIs(items[i]);
      ToolIs(items[i]);
      OneTreeValue(items[i]);
    }
  }

  lemma BodyValueInOrder(name: string, v: JSON, turn: Turn, draw: nat -> nat)
    ensures MemberInOrder(name, BodyTree(name, v, turn, draw))
  {
    hide SerdeOrdered, FlatOrdered, TextOrdered, ToolOrdered, ItemInOrder, SerdeTree, ItemTree, ToolTree, TextControlsTree,
      PairMembers, DrawnPairs;
    SerdeIs(v);
    FlatIs(v, ["effort", "summary"]);
    ShortTablesDistinct();
    if v.Arr? {
      ItemsInOrder(v.items);
    }
    if v.Obj? {
      TextIs(v);
      TextIsObject(v);
    }
  }

  lemma TextIsObject(v: JSON)
    requires v.Obj?
    ensures TextControlsTree(v).ObjTree? && ElementTree(v, ["effort", "summary"], Plain) == OrderedTree(v, ["effort", "summary"], Plain)
  {
  }

  lemma {:induction false} BodyInOrder(n: Normalized, turn: Turn, draw: nat -> nat, k: nat)
    requires k <= |WIRE_ORDER|
    ensures forall m :: m in BodyMembers(n, turn, draw, k) ==> MemberInOrder(m.name, m.tree)
  {
    hide BodyTree, CompletedField, MemberInOrder;
    if k > 0 {
      var name := WIRE_ORDER[k - 1];
      BodyInOrder(n, turn, draw, k - 1);
      match CompletedField(name, n, turn)
      case Some(v) => BodyValueInOrder(name, v, turn, draw);
      case None =>
    }
  }

  /** The bytes of a completed request are written in this order. */
  lemma CompletedInOrder(n: Normalized, turn: Turn, draw: nat -> nat)
    ensures RequestInOrder(CompletedTree(n, turn, draw))
  {
    hide BodyMembers, MemberInOrder, Listed, Completed, IndexOf;
    var ms := BodyMembers(n, turn, draw, |WIRE_ORDER|);
    BodyInOrder(n, turn, draw, |WIRE_ORDER|);
    BodyMembersInOrder(n, turn, draw, |WIRE_ORDER|);
    assert WIRE_ORDER[..|WIRE_ORDER|] == WIRE_ORDER;
    WireDistinct();
    ListedInOrder(WIRE_ORDER, Completed(n, turn).Keys);
    forall i | 0 <= i < |ms| ensures ms[i].name in WIRE_ORDER && MemberInOrder(ms[i].name, ms[i].tree) {
      assert Keys(ms)[i] == ms[i].name && Keys(ms)[i] in Keys(ms) && ms[i] in ms;
    }
    forall i, j | 0 <= i < j < |ms| ensures !Precedes(WIRE_ORDER, ms[j].name, ms[i].name) {
      assert Keys(ms)[i] == ms[i].name && Keys(ms)[j] == ms[j].name;
      NotBefore(WIRE_ORDER, ms[i].name, ms[j].name);
    }
  }
}
