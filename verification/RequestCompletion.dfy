/**
 Writing a completed request: every member in Codex's order, client metadata in a drawn order, and
 the text reads back as the completed value.
 */
module RequestCompletion {
  import opened Basics
  import opened Json
  import opened JsonReader
  import opened CodexPrinter
  import opened RequestGate

  // ---- client metadata in a drawn order ----

  datatype Pair = Pair(name: string, value: string)

  function MetadataPairs(turn: Turn): seq<Pair>
  {
    [Pair("x-codex-installation-id", turn.installationId),
     Pair("session_id", turn.threadId),
     Pair("thread_id", turn.threadId),
     Pair("x-codex-window-id", turn.threadId + ":0"),
     Pair("turn_id", turn.turnId),
     Pair("root_turn_id", turn.turnId),
     Pair("x-codex-turn-metadata", turn.metadata)]
  }

  /** The first `n` elements shuffled: `draw(i)` is the number drawn for position `i`. */
  function Shuffled<T>(s: seq<T>, n: nat, draw: nat -> nat): (r: seq<T>)
    requires n <= |s|
    ensures |r| == |s|
    decreases n
  {
    if n <= 1 then s
    else
      var other := draw(n - 1) % n;
      Shuffled(s[n - 1 := s[other]][other := s[n - 1]], n - 1, draw)
  }

  method Shuffle<T>(items: array<T>, draw: nat -> nat)
    modifies items
    ensures items[..] == Shuffled(old(items[..]), items.Length, draw)
  {
    var left: nat := items.Length;
    while left > 1
      invariant left <= items.Length
      invariant Shuffled(items[..], left, draw) == Shuffled(old(items[..]), items.Length, draw)
    {
      ghost var before := items[..];
      var index := left - 1;
      var other := draw(index) % (index + 1);
      items[index], items[other] := items[other], items[index];
      assert items[..] == before[index := before[other]][other := before[index]];
      left := left - 1;
    }
  }

  lemma {:induction false} DrawnAlike<T>(s: seq<T>, n: nat, draw: nat -> nat, other: nat -> nat)
    requires n <= |s| && forall i :: 0 <= i < n ==> draw(i) == other(i)
    ensures Shuffled(s, n, draw) == Shuffled(s, n, other)
    decreases n
  {
    if n > 1 {
      var k := draw(n - 1) % n;
      DrawnAlike(s[n - 1 := s[k]][k := s[n - 1]], n - 1, draw, other);
    }
  }

  /** Every order of the elements comes out of some draw. */
  lemma {:induction false} EveryOrderDrawn<T(!new)>(s: seq<T>, t: seq<T>, n: nat) returns (draw: nat -> nat)
    requires n <= |s| == |t| && multiset(s[..n]) == multiset(t[..n]) && s[n..] == t[n..]
    ensures Shuffled(s, n, draw) == t && forall i :: 0 < i < n ==> draw(i) <= i
    decreases n
  {
    hide Shuffled;
    if n <= 1 {
      draw := i => 0;
      SingleOrder(s, t, n);
      NoSwap(s, n, draw);
    } else {
      var k := PlaceOf(s[..n], t[..n], n - 1);
      var swapped := s[n - 1 := s[k]][k := s[n - 1]];
      SwappedRest(s, t, n, k);
      var before := EveryOrderDrawn(swapped, t, n - 1);
      draw := i => if i == n - 1 then k else before(i);
      DrawnAlike(swapped, n - 1, draw, before);
      OneSwap(s, n, draw, k);
    }
  }

  lemma NoSwap<T>(s: seq<T>, n: nat, draw: nat -> nat)
    requires n <= |s| && n <= 1
    ensures Shuffled(s, n, draw) == s
  {
  }

  lemma OneSwap<T>(s: seq<T>, n: nat, draw: nat -> nat, k: nat)
    requires 1 < n <= |s| && k < n && draw(n - 1) == k
    ensures Shuffled(s, n, draw) == Shuffled(s[n - 1 := s[k]][k := s[n - 1]], n - 1, draw)
  {
    assert k % n == k;
  }

  lemma SingleOrder<T>(s: seq<T>, t: seq<T>, n: nat)
    requires n <= 1 && n <= |s| == |t| && multiset(s[..n]) == multiset(t[..n]) && s[n..] == t[n..]
    ensures s == t
  {
    if n == 1 {
      assert s[..1] == [s[0]] && t[..1] == [t[0]];
      assert s[0] in multiset(t[..1]);
      assert s == [s[0]] + s[1..] && t == [t[0]] + t[1..];
    } else {
      assert s == s[0..] && t == t[0..];
    }
  }

  lemma PlaceOf<T>(s: seq<T>, t: seq<T>, i: nat) returns (k: nat)
    requires multiset(s) == multiset(t) && i < |t|
    ensures k < |s| && s[k] == t[i]
  {
    assert t[i] in multiset(s);
    k :| 0 <= k < |s| && s[k] == t[i];
  }

  lemma SwappedRest<T>(s: seq<T>, t: seq<T>, n: nat, k: nat)
    requires 1 < n <= |s| == |t| && k < n && s[k] == t[n - 1]
    requires multiset(s[..n]) == multiset(t[..n]) && s[n..] == t[n..]
    ensures var swapped := s[n - 1 := s[k]][k := s[n - 1]];
      multiset(swapped[..n - 1]) == multiset(t[..n - 1]) && swapped[n - 1..] == t[n - 1..]
  {
    var swapped, front := s[n - 1 := s[k]][k := s[n - 1]], s[..n];
    SwapKeeps(front, n - 1, k);
    FrontSwapped(s, n, k);
    OneLonger(swapped, n - 1);
    OneLonger(t, n - 1);
    LastGone(swapped[..n - 1], t[..n - 1], t[n - 1]);
    Tail(swapped, s, n - 1);
    Tail(t, s, n - 1);
  }

  lemma FrontSwapped<T>(s: seq<T>, n: nat, k: nat)
    requires 1 < n <= |s| && k < n
    ensures var swapped, front := s[n - 1 := s[k]][k := s[n - 1]], s[..n];
      && swapped[..n] == front[n - 1 := front[k]][k := front[n - 1]] && swapped[n - 1] == s[k] && swapped[n..] == s[n..]
  {
  }

  lemma Tail<T>(s: seq<T>, of: seq<T>, i: nat)
    requires i < |s| == |of| && s[i + 1..] == of[i + 1..]
    ensures s[i..] == [s[i]] + of[i + 1..]
  {
  }

  lemma LastGone<T>(a: seq<T>, b: seq<T>, x: T)
    requires multiset(a + [x]) == multiset(b + [x])
    ensures multiset(a) == multiset(b)
  {
    assert multiset(a) == multiset(a + [x]) - multiset{x};
    assert multiset(b) == multiset(b + [x]) - multiset{x};
  }

  lemma SwapKeeps<T>(s: seq<T>, i: nat, j: nat)
    requires i < |s| && j < |s|
    ensures multiset(s[i := s[j]][j := s[i]]) == multiset(s)
  {
    var once := s[i := s[j]];
    assert multiset(once) == multiset(s) - multiset{s[i]} + multiset{s[j]};
    assert multiset(once[j := s[i]]) == multiset(once) - multiset{once[j]} + multiset{s[i]};
  }

  ghost predicate DistinctNames(s: seq<Pair>)
  {
    forall i, j :: 0 <= i < j < |s| ==> s[i].name != s[j].name
  }

  lemma {:induction false} ShuffleKeepsPairs(s: seq<Pair>, n: nat, draw: nat -> nat)
    requires n <= |s| && DistinctNames(s)
    ensures DistinctNames(Shuffled(s, n, draw))
    ensures forall p :: p in Shuffled(s, n, draw) <==> p in s
    decreases n
  {
    if n > 1 {
      var other := draw(n - 1) % n;
      var t := s[n - 1 := s[other]][other := s[n - 1]];
      forall p ensures p in t <==> p in s {
        assert t[other] == s[n - 1] && t[n - 1] == s[other];
        assert forall i :: 0 <= i < |s| && i != other && i != n - 1 ==> t[i] == s[i];
        if p in s {
          var i :| 0 <= i < |s| && s[i] == p;
          assert p == t[if i == other then n - 1 else if i == n - 1 then other else i];
        }
      }
      ShuffleKeepsPairs(t, n - 1, draw);
    }
  }

  function PairMembers(pairs: seq<Pair>): (r: seq<Member>)
    ensures |r| == |pairs| && forall i :: 0 <= i < |pairs| ==> r[i] == Member(pairs[i].name, StrTree(pairs[i].value))
  {
    seq(|pairs|, i requires 0 <= i < |pairs| => Member(pairs[i].name, StrTree(pairs[i].value)))
  }

  function DrawnPairs(turn: Turn, draw: nat -> nat): seq<Pair>
  {
    Shuffled(MetadataPairs(turn), |MetadataPairs(turn)|, draw)
  }

  /** Whatever order is drawn, the client metadata is the same object. */
  lemma MetadataValue(turn: Turn, draw: nat -> nat)
    ensures Members(PairMembers(DrawnPairs(turn, draw))) == ClientMetadata(turn)
  {
    hide Shuffled, Members, MetadataPairs, ClientMetadata, DistinctNames, Value;
    var pairs := MetadataPairs(turn);
    var drawn := DrawnPairs(turn, draw);
    var ms := PairMembers(drawn);
    var obj := ClientMetadata(turn);
    PairsAre(turn);
    ShuffleKeepsPairs(pairs, |pairs|, draw);
    NamesDiffer(drawn);
    forall i | 0 <= i < |ms| ensures Keys(ms)[i] in obj && Value(ms[i].tree) == obj[Keys(ms)[i]] {
      assert drawn[i] in drawn;
      StrValue(drawn[i].value);
    }
    forall k | k in obj ensures k in Keys(ms) {
      var p :| p in pairs && p.name == k;
      assert p in drawn;
      var i :| 0 <= i < |drawn| && drawn[i] == p;
      assert Keys(ms)[i] == k;
    }
    MembersOf(ms, obj);
  }

  lemma StrValue(s: string)
    ensures Value(StrTree(s)) == Str(s)
  {
  }

  lemma NamesDiffer(pairs: seq<Pair>)
    requires DistinctNames(pairs)
    ensures Distinct(Keys(PairMembers(pairs)))
  {
  }

  lemma PairsAre(turn: Turn)
    ensures DistinctNames(MetadataPairs(turn))
    ensures forall p :: p in MetadataPairs(turn) ==> p.name in ClientMetadata(turn) && ClientMetadata(turn)[p.name] == Str(p.value)
    ensures forall k :: k in ClientMetadata(turn) ==> exists p :: p in MetadataPairs(turn) && p.name == k
  {
    hide MetadataPairs, ClientMetadata;
    NamesAre(turn);
    forall p | p in MetadataPairs(turn)
      ensures p.name in ClientMetadata(turn) && ClientMetadata(turn)[p.name] == Str(p.value)
    {
      var i :| 0 <= i < |MetadataPairs(turn)| && MetadataPairs(turn)[i] == p;
      PairAt(turn, i);
    }
    forall k | k in ClientMetadata(turn) ensures exists p :: p in MetadataPairs(turn) && p.name == k {
      var i := PairOf(turn, k);
      assert MetadataPairs(turn)[i] in MetadataPairs(turn);
    }
  }

  lemma NamesAre(turn: Turn)
    ensures DistinctNames(MetadataPairs(turn))
  {
  }

  lemma PairAt(turn: Turn, i: nat)
    requires i < |MetadataPairs(turn)|
    ensures var p := MetadataPairs(turn)[i]; p.name in ClientMetadata(turn) && ClientMetadata(turn)[p.name] == Str(p.value)
  {
  }

  lemma PairOf(turn: Turn, k: string) returns (i: nat)
    requires k in ClientMetadata(turn)
    ensures i < |MetadataPairs(turn)| && MetadataPairs(turn)[i].name == k
  {
    i := if k == "x-codex-installation-id" then 0 else if k == "session_id" then 1 else if k == "thread_id" then 2
         else if k == "x-codex-window-id" then 3 else if k == "turn_id" then 4 else if k == "root_turn_id" then 5 else 6;
  }

  // ---- the text of a completed request ----

  function ItemTrees(items: seq<JSON>): (r: seq<Tree>)
    ensures |r| == |items| && forall i :: 0 <= i < |items| ==> r[i] == ItemTree(items[i])
  {
    seq(|items|, i requires 0 <= i < |items| => ItemTree(items[i]))
  }

  function ToolTrees(tools: seq<JSON>): (r: seq<Tree>)
    ensures |r| == |tools| && forall i :: 0 <= i < |tools| ==> r[i] == ToolTree(tools[i])
  {
    seq(|tools|, i requires 0 <= i < |tools| => ToolTree(tools[i]))
  }

  /** How completion lays out the value of one member. */
  function BodyTree(name: string, v: JSON, turn: Turn, draw: nat -> nat): Tree
  {
    if name == "input" && v.Arr? then ArrTree(ItemTrees(v.items))
    else if name == "tools" && v.Arr? then ArrTree(ToolTrees(v.items))
    else if name == "reasoning" && v.Obj? then OrderedTree(v, ["effort", "summary"], Plain)
    else if name == "text" && v.Obj? then TextControlsTree(v)
    else if name == "client_metadata" then ObjTree(PairMembers(DrawnPairs(turn, draw)))
    else SerdeTree(v)
  }

  /** The members written for the first `k` names of the wire order. */
  function BodyMembers(n: Normalized, turn: Turn, draw: nat -> nat, k: nat): seq<Member>
    requires k <= |WIRE_ORDER|
  {
    if k == 0 then []
    else
      var name := WIRE_ORDER[k - 1];
      BodyMembers(n, turn, draw, k - 1)
      + match CompletedField(name, n, turn)
        case Some(v) => [Member(name, BodyTree(name, v, turn, draw))]
        case None => []
  }

  function CompletedTree(n: Normalized, turn: Turn, draw: nat -> nat): Tree
  {
    ObjTree(BodyMembers(n, turn, draw, |WIRE_ORDER|))
  }

  // ---- it reads back ----

  lemma ItemTreesValue(items: seq<JSON>)
    ensures Values(ItemTrees(items)) == items && Values(ToolTrees(items)) == items
  {
    hide ItemTree, ToolTree, Values;
    forall i | 0 <= i < |items| ensures Value(ItemTree(items[i])) == items[i] && Value(ToolTree(items[i])) == items[i] {
      OneTreeValue(items[i]);
    }
  }

  lemma OneTreeValue(v: JSON)
    ensures Value(ItemTree(v)) == v && Value(ToolTree(v)) == v
    ensures v.Obj? ==> Value(TextControlsTree(v)) == v && Value(OrderedTree(v, ["effort", "summary"], Plain)) == v
  {
    hide OrderedTree, Value, ElementTree;
    TablesDistinct(Kind(v));
    ElementTreeValue(v, ItemOrder(Kind(v)), ItemField(Kind(v)));
    ElementTreeValue(v, TOOL_ORDER, ToolField);
    if v.Obj? {
      OrderedTreeValue(v, ["verbosity", "format"], TextField);
      OrderedTreeValue(v, ["effort", "summary"], Plain);
    }
  }

  lemma BodyTreeValue(name: string, v: JSON, turn: Turn, draw: nat -> nat)
    requires name == "client_metadata" ==> v == Obj(ClientMetadata(turn))
    ensures Value(BodyTree(name, v, turn, draw)) == v
  {
    hide OrderedTree, ItemTrees, ToolTrees, SerdeTree, PairMembers, DrawnPairs, ClientMetadata, TextControlsTree, ItemTree,
      ToolTree, Value, Values, Members;
    SerdeTreeValue(v);
    MetadataValue(turn, draw);
    ObjectValue(PairMembers(DrawnPairs(turn, draw)));
    OneTreeValue(v);
    if v.Arr? {
      ItemTreesValue(v.items);
      ArrayValue(ItemTrees(v.items));
      ArrayValue(ToolTrees(v.items));
    }
  }

  lemma ArrayValue(ts: seq<Tree>)
    ensures Value(ArrTree(ts)) == Arr(Values(ts))
  {
  }

  lemma ObjectValue(ms: seq<Member>)
    ensures Value(ObjTree(ms)) == Obj(Members(ms))
  {
  }

  /** The members stand in wire order, each name once, present exactly when it has a value. */
  lemma {:induction false} BodyMembersInOrder(n: Normalized, turn: Turn, draw: nat -> nat, k: nat)
    requires k <= |WIRE_ORDER|
    ensures Keys(BodyMembers(n, turn, draw, k)) == Listed(WIRE_ORDER[..k], Completed(n, turn).Keys)
  {
    hide BodyTree, CompletedField, Completed, Listed, Keys;
    NoKeysYet();
    ListedGrows(WIRE_ORDER, if k == 0 then 0 else k - 1, Completed(n, turn).Keys);
    if k > 0 {
      var name := WIRE_ORDER[k - 1];
      BodyMembersInOrder(n, turn, draw, k - 1);
      CompletedKeys(n, turn);
      assert name in WIRE_ORDER;
      var before, ms := BodyMembers(n, turn, draw, k - 1), BodyMembers(n, turn, draw, k);
      match CompletedField(name, n, turn)
      case Some(v) =>
        KeysAppend(before, Member(name, BodyTree(name, v, turn, draw)));
      case None =>
        assert ms == before;
    }
  }

  lemma NoKeysYet()
    ensures Keys([]) == []
  {
  }

  lemma {:induction false} BodyMembersValues(n: Normalized, turn: Turn, draw: nat -> nat, k: nat)
    requires k <= |WIRE_ORDER|
    ensures forall m :: m in BodyMembers(n, turn, draw, k) ==> CompletedField(m.name, n, turn) == Some(Value(m.tree))
  {
    hide BodyTree, CompletedField, Value, ClientMetadata;
    if k > 0 {
      var name := WIRE_ORDER[k - 1];
      BodyMembersValues(n, turn, draw, k - 1);
      MetadataField(n, turn);
      match CompletedField(name, n, turn)
      case Some(v) => BodyTreeValue(name, v, turn, draw);
      case None =>
    }
  }

  lemma MetadataField(n: Normalized, turn: Turn)
    ensures CompletedField("client_metadata", n, turn) == Some(Obj(ClientMetadata(turn)))
  {
    hide ClientMetadata;
  }

  lemma WireDistinct()
    ensures Distinct(WIRE_ORDER)
  {
  }

  lemma BodyMemberAt(n: Normalized, turn: Turn, draw: nat -> nat, i: nat)
    requires i < |BodyMembers(n, turn, draw, |WIRE_ORDER|)|
    ensures var ms, done := BodyMembers(n, turn, draw, |WIRE_ORDER|), Completed(n, turn);
      Keys(ms)[i] in done && Value(ms[i].tree) == done[Keys(ms)[i]]
  {
    hide CompletedField, Completed, BodyMembers, Value;
    var ms := BodyMembers(n, turn, draw, |WIRE_ORDER|);
    BodyMembersValues(n, turn, draw, |WIRE_ORDER|);
    CompletedKeys(n, turn);
    assert ms[i] in ms;
    BodyMembersInOrder(n, turn, draw, |WIRE_ORDER|);
    assert Keys(ms)[i] in Keys(ms);
  }

  lemma CompletedTreeValue(n: Normalized, turn: Turn, draw: nat -> nat)
    ensures Value(CompletedTree(n, turn, draw)) == Obj(Completed(n, turn))
  {
    hide Completed, Listed, BodyMembers, Members, Keys, Value, Distinct;
    var ms, done := BodyMembers(n, turn, draw, |WIRE_ORDER|), Completed(n, turn);
    BodyMembersInOrder(n, turn, draw, |WIRE_ORDER|);
    assert WIRE_ORDER[..|WIRE_ORDER|] == WIRE_ORDER;
    WireDistinct();
    CompletedKeys(n, turn);
    forall i | 0 <= i < |ms| ensures Keys(ms)[i] in done && Value(ms[i].tree) == done[Keys(ms)[i]] {
      BodyMemberAt(n, turn, draw, i);
    }
    MembersOf(ms, done);
    ObjectValue(ms);
  }

  // ---- writing it ----

  /** How many items stand before the given ones. */
  function Head(n: Normalized): nat
  {
    if n.instructions.Some? then 1 else 0
  }

  /** The item written at an index, behind a comma unless it is the first. */
  lemma ItemWritten(n: Normalized, turn: Turn, index: nat)
    requires index < |n.items|
    ensures var ts, i := ItemTrees(CompletedItems(n, turn)), Head(n) + index;
      && i < |ts|
      && ItemsText(ts[..i + 1], false)
         == ItemsText(ts[..i], false) + (if i == 0 then "" else ",") + Text(ItemTree(ItemWithId(n, turn, index)), false)
  {
    hide Text, ItemsText, ItemTree, Message, TextPart, WithId, ItemWithId;
    var ts, i := ItemTrees(CompletedItems(n, turn)), Head(n) + index;
    assert CompletedItems(n, turn)[i] == ItemWithId(n, turn, index);
    OneLonger(ts, i);
    ItemsAppend(ts[..i], ts[i], false);
  }

  /** The instructions, where there are any, are the first item. */
  lemma InstructionsWritten(n: Normalized, turn: Turn)
    ensures var ts := ItemTrees(CompletedItems(n, turn));
      && |ts| == Head(n) + |n.items|
      && ItemsText(ts[..Head(n)], false) ==
           match n.instructions
           case Some(text) =>
             Text(ItemTree(WithId(Message("developer", [TextPart("developer", text)]), turn.instructionsId)), false)
           case None => ""
  {
    hide Text, ItemsText, ItemTree, Message, TextPart, WithId, ItemWithId;
    var ts := ItemTrees(CompletedItems(n, turn));
    NothingYet();
    assert ts[..0] == [];
    if n.instructions.Some? {
      OneLonger(ts, 0);
      ItemsAppend([], ts[0], false);
    }
  }

  method WriteItems(out: Buffer, n: Normalized, turn: Turn)
    modifies out
    ensures out.text == old(out.text) + Text(ArrTree(ItemTrees(CompletedItems(n, turn))), false)
  {
    hide Text, ItemsText, ItemTree, Message, TextPart, WithId, ItemWithId, ItemTrees, CompletedItems;
    ghost var ts := ItemTrees(CompletedItems(n, turn));
    InstructionsWritten(n, turn);
    out.Push('[');
    ghost var start := out.text;
    var wroteItem := false;
    if n.instructions.Some? {
      WriteItem(out, WithId(Message("developer", [TextPart("developer", n.instructions.value)]), turn.instructionsId));
      wroteItem := true;
    }
    for index := 0 to |n.items|
      invariant wroteItem == (Head(n) + index > 0)
      invariant out.text == start + ItemsText(ts[..Head(n) + index], false)
    {
      ItemWritten(n, turn, index);
      if wroteItem {
        out.Push(',');
      }
      wroteItem := true;
      WriteItem(out, ItemWithId(n, turn, index));
    }
    assert ts[..|ts|] == ts;
    out.Push(']');
    ArrayText(ts);
  }

  method WriteTools(out: Buffer, tools: seq<JSON>)
    modifies out
    ensures out.text == old(out.text) + Text(ArrTree(ToolTrees(tools)), false)
  {
    hide Text, ItemsText, ToolTree;
    ghost var ts := ToolTrees(tools);
    out.Push('[');
    ghost var start := out.text;
    NothingYet();
    assert ts[..0] == [];
    for index := 0 to |tools|
      invariant out.text == start + ItemsText(ts[..index], false)
    {
      assert ts[..index + 1] == ts[..index] + [ToolTree(tools[index])];
      ItemsAppend(ts[..index], ToolTree(tools[index]), false);
      if index > 0 {
        out.Push(',');
      }
      WriteTool(out, tools[index]);
    }
    assert ts[..|tools|] == ts;
    out.Push(']');
    ArrayText(ts);
  }

  method WriteMetadata(out: Buffer, turn: Turn, draw: nat -> nat)
    modifies out
    ensures out.text == old(out.text) + Text(ObjTree(PairMembers(DrawnPairs(turn, draw))), false)
  {
    hide Text, MembersText, StringText, Shuffled;
    var given := MetadataPairs(turn);
    var entries := new Pair[|given|](i requires 0 <= i < |given| => given[i]);
    assert entries[..] == given;
    Shuffle(entries, draw);
    ghost var pairs := DrawnPairs(turn, draw);
    ghost var ms := PairMembers(pairs);
    out.Push('{');
    ghost var start := out.text;
    NothingYet();
    assert ms[..0] == [];
    for index := 0 to entries.Length
      invariant entries[..] == pairs
      invariant out.text == start + MembersText(ms[..index], false)
    {
      var entry := entries[index];
      assert entry == pairs[index];
      assert ms[..index + 1] == ms[..index] + [Member(entry.name, StrTree(entry.value))];
      MembersAppend(ms[..index], Member(entry.name, StrTree(entry.value)), false);
      if index > 0 {
        out.Push(',');
      }
      ghost var before := out.text;
      WriteString(out, entry.name);
      out.Push(':');
      WriteString(out, entry.value);
      StrText(entry.value);
      OneMember(before, entry.name, StrTree(entry.value));
    }
    assert ms[..entries.Length] == ms;
    out.Push('}');
    ObjectText(ms);
  }

  lemma StrText(s: string)
    ensures Text(StrTree(s), false) == StringText(s, false)
  {
  }

  method WriteBodyValue(out: Buffer, name: string, v: JSON, n: Normalized, turn: Turn, draw: nat -> nat)
    requires CompletedField(name, n, turn) == Some(v)
    modifies out
    ensures out.text == old(out.text) + Text(BodyTree(name, v, turn, draw), false)
  {
    hide Text, OrderedTree, TextControlsTree, SerdeTree, CompletedItems, ItemTrees, ToolTrees, PairMembers, DrawnPairs,
      CompletedReasoning, CompletedText, ClientMetadata;
    if name == "input" {
      WriteItems(out, n, turn);
    } else if name == "tools" {
      WriteTools(out, v.items);
    } else if name == "reasoning" && v.Obj? {
      WriteOrderedWith(out, v, ["effort", "summary"], Plain);
    } else if name == "text" && v.Obj? {
      WriteTextControls(out, v);
    } else if name == "client_metadata" {
      WriteMetadata(out, turn, draw);
    } else {
      WriteJson(out, v);
    }
  }

  /** One member of the body, if it has a value: a comma unless it is the first, the name, the value. */
  method WriteBodyField(out: Buffer, k: nat, n: Normalized, turn: Turn, draw: nat -> nat, first: bool) returns (still: bool)
    requires k < |WIRE_ORDER|
    requires out.text == "{" + MembersText(BodyMembers(n, turn, draw, k), false)
    requires first == (BodyMembers(n, turn, draw, k) == [])
    modifies out
    ensures out.text == "{" + MembersText(BodyMembers(n, turn, draw, k + 1), false)
    ensures still == (BodyMembers(n, turn, draw, k + 1) == [])
  {
    hide MembersText, CompletedField, BodyTree, Text, StringText;
    var name := WIRE_ORDER[k];
    ghost var ms := BodyMembers(n, turn, draw, k);
    match CompletedField(name, n, turn) {
      case Some(v) =>
        ghost var m := Member(name, BodyTree(name, v, turn, draw));
        MembersAppend(ms, m, false);
        if !first {
          out.Push(',');
        }
        ghost var before := out.text;
        WriteString(out, name);
        out.Push(':');
        WriteBodyValue(out, name, v, n, turn, draw);
        OneMember(before, name, BodyTree(name, v, turn, draw));
        assert BodyMembers(n, turn, draw, k + 1) == ms + [m];
        assert out.text == before + MemberText(m, false);
        assert "{" + MembersText(ms + [m], false) == before + MemberText(m, false) by {
          hide *;
          assert before == "{" + MembersText(ms, false) + (if ms == [] then "" else ",");
        }
        still := false;
      case None =>
        assert BodyMembers(n, turn, draw, k + 1) == ms;
        still := first;
    }
  }

  /** `complete`: the body of the request, in Codex's field order. */
  method Complete(n: Normalized, turn: Turn, draw: nat -> nat) returns (body: string)
    ensures body == Text(CompletedTree(n, turn, draw), false)
    ensures ReadDocument(body) == Some(Obj(Completed(n, turn)))
  {
    hide *;
    var out := new Buffer();
    out.Push('{');
    EmptyBody(n, turn, draw);
    var first := true;
    for k := 0 to |WIRE_ORDER|
      invariant out.text == "{" + MembersText(BodyMembers(n, turn, draw, k), false)
      invariant first == (BodyMembers(n, turn, draw, k) == [])
    {
      first := WriteBodyField(out, k, n, turn, draw, first);
    }
    out.Push('}');
    body := out.text;
    WholeBody(n, turn, draw);
    CompletedTreeValue(n, turn, draw);
    ReadDocumentText(CompletedTree(n, turn, draw), false);
  }

  lemma EmptyBody(n: Normalized, turn: Turn, draw: nat -> nat)
    ensures BodyMembers(n, turn, draw, 0) == [] && MembersText([], false) == ""
  {
  }

  lemma WholeBody(n: Normalized, turn: Turn, draw: nat -> nat)
    ensures Text(CompletedTree(n, turn, draw), false) == "{" + MembersText(BodyMembers(n, turn, draw, |WIRE_ORDER|), false) + "}"
  {
    hide BodyMembers, MembersText;
    ObjectText(BodyMembers(n, turn, draw, |WIRE_ORDER|));
  }

  /**
   From a client's request to the bytes sent: when the gate passes a request on /v1, what the pool
   writes for it is read by the upstream as a request the native gate passes, or the request has one
   of the two shapes named in CompletionAccepted.
   */
  lemma CompletedRequestPasses(payload: map<string, JSON>, body: Body, newer: bool, turn: Turn, draw: nat -> nat)
    requires CheckResponses(payload, V1, body, newer).Passed?
    ensures var read := ReadDocument(Text(CompletedTree(Normalize(payload), turn, draw), false));
      && read.Some? && read.value.Obj?
      && (CheckResponses(read.value.members, Native, Responses, false).Passed?
          <==> forall v :: v in ArrayInput(payload) ==> Completable(v))
  {
    hide *;
    CompletedTreeValue(Normalize(payload), turn, draw);
    ReadDocumentText(CompletedTree(Normalize(payload), turn, draw), false);
    CompletionAccepted(payload, body, newer, turn);
  }
}
