/**
 Which answers of an API-key request are replaced: exactly those in which a tool's call was refused
 with the wording for it. Every other item goes out as the client wrote it.
 */
module AnsweredExactly {
  import opened Basics
  import opened Json
  import opened JsonReader
  import opened JsonText
  import opened KeyLogin
  import opened KeyLoginRequest
  import opened KeyLoginReads

  // ---- which call an item answers ----

  /** The last call of the request with that id. */
  ghost predicate LastCall(items: seq<Item>, id: string, call: Call)
  {
    exists k :: 0 <= k < |items| && items[k].call == Some(call) && items[k].callId == id
      && forall j :: k < j < |items| && items[j].call.Some? ==> items[j].callId != id
  }

  ghost predicate NoCall(items: seq<Item>, id: string)
  {
    forall j :: 0 <= j < |items| && items[j].call.Some? ==> items[j].callId != id
  }

  /** The call with that id: the request's last, or else the one in the log. */
  ghost predicate CallOf(items: seq<Item>, log: map<string, Call>, id: string, call: Call)
  {
    LastCall(items, id, call) || (NoCall(items, id) && id in log && log[id] == call)
  }

  /** An item that answers a call with the wording of a Codex without the tool, where a native Codex answers otherwise. */
  ghost predicate Refused(items: seq<Item>, i: nat, log: map<string, Call>, known: Answers, call: Call, answer: string)
    requires i < |items|
  {
    && items[i].isOutput && CallOf(items, log, items[i].callId, call)
    && items[i].output == Some(known.unsupported(call)) && known.native(call) == Some(answer)
  }

  lemma {:induction false} CallsAre(items: seq<Item>, id: string)
    ensures id !in CallsIn(items) <==> NoCall(items, id)
    ensures id in CallsIn(items) ==> LastCall(items, id, CallsIn(items)[id])
  {
    if items != [] {
      var last, init := items[|items| - 1], items[..|items| - 1];
      CallsAre(init, id);
      assert forall j :: 0 <= j < |init| ==> items[j] == init[j];
      if last.call.Some? && last.callId == id {
        assert LastCall(items, id, last.call.value);
      } else if id in CallsIn(init) {
        var call := CallsIn(init)[id];
        var k :| 0 <= k < |init| && init[k].call == Some(call) && init[k].callId == id
          && forall j :: k < j < |init| && init[j].call.Some? ==> init[j].callId != id;
        assert items[k] == init[k];
        assert LastCall(items, id, call);
      }
    }
  }

  lemma OneLastCall(items: seq<Item>, id: string, a: Call, b: Call)
    requires LastCall(items, id, a) && LastCall(items, id, b)
    ensures a == b
  {
    var k :| 0 <= k < |items| && items[k].call == Some(a) && items[k].callId == id
      && forall j :: k < j < |items| && items[j].call.Some? ==> items[j].callId != id;
    var l :| 0 <= l < |items| && items[l].call == Some(b) && items[l].callId == id
      && forall j :: l < j < |items| && items[j].call.Some? ==> items[j].callId != id;
    assert k == l;
  }

  lemma NotBoth(items: seq<Item>, id: string, call: Call)
    requires LastCall(items, id, call)
    ensures !NoCall(items, id)
  {
  }

  /** An item has an answer exactly where it is one of those, and it is that call's. */
  lemma AnswerIs(items: seq<Item>, i: nat, log: map<string, Call>, known: Answers, answer: string)
    requires i < |items|
    ensures AnswerOf(items[i], CallsIn(items), log, known) == Some(answer)
      <==> exists call :: Refused(items, i, log, known, call, answer)
  {
    hide LastCall, NoCall, CallsIn;
    var id, calls := items[i].callId, CallsIn(items);
    CallsAre(items, id);
    if AnswerOf(items[i], calls, log, known) == Some(answer) {
      assert Refused(items, i, log, known, if id in calls then calls[id] else log[id], answer);
    }
    if call :| Refused(items, i, log, known, call, answer) {
      if id in calls {
        NotBoth(items, id, calls[id]);
        OneLastCall(items, id, calls[id], call);
      } else if LastCall(items, id, call) {
        NotBoth(items, id, call);
        assert false;
      }
    }
  }

  // ---- what is replaced ----

  /** The edit of an item: the first place its text has the old answer, and the new one. */
  ghost predicate Replaces(edit: Splice, item: Item, refusal: string, answer: string)
  {
    var needle := "\"output\":" + StringText(refusal, false);
    && item.start <= edit.start && edit.end == edit.start + |needle|
    && OccursAt(item.text, needle, edit.start - item.start)
    && (forall at :: 0 <= at < edit.start - item.start ==> !OccursAt(item.text, needle, at))
    && edit.text == "\"output\":" + StringText(answer, false)
  }

  ghost predicate RefusedAndReplaced(items: seq<Item>, i: nat, log: map<string, Call>, known: Answers, edit: Splice)
    requires i < |items|
  {
    exists call, answer ::
      Refused(items, i, log, known, call, answer) && Replaces(edit, items[i], items[i].output.value, answer)
  }

  /** The refusal stands in the item's own text, so that it can be replaced. */
  ghost predicate HasRefusal(item: Item)
  {
    item.output.Some? && exists at: nat :: OccursAt(item.text, "\"output\":" + StringText(item.output.value, false), at)
  }

  lemma EditIs(item: Item, calls: map<string, Call>, log: map<string, Call>, known: Answers)
    ensures var edit, answer := AnswerEdit(item, calls, log, known), AnswerOf(item, calls, log, known);
      && (edit.Some? ==> answer.Some? && item.output.Some? && Replaces(edit.value, item, item.output.value, answer.value))
      && (edit.None? && answer.Some? ==> item.output.Some? && !HasRefusal(item))
  {
    hide StringText;
  }

  /**
   The edits made for the items of a request: one for exactly each item that answers a call with the
   refusal's wording and has it in its text, in the items' order, with what a native Codex answers.
   */
  lemma EditsAreExactly(items: seq<Item>, log: map<string, Call>, known: Answers) returns (of: seq<nat>)
    ensures var edits := AnswerEdits(items, CallsIn(items), log, known);
      && |of| == |edits| && (forall k :: 0 <= k < |of| ==> of[k] < |items|)
      && (forall j, k :: 0 <= j < k < |of| ==> of[j] < of[k])
      && forall k :: 0 <= k < |of| ==> RefusedAndReplaced(items, of[k], log, known, edits[k])
    ensures forall i, call, answer ::
      0 <= i < |items| && Refused(items, i, log, known, call, answer) && HasRefusal(items[i]) ==> i in of
  {
    hide AnswerEdit, AnswerOf, AnswerEdits, CallsIn, Replaces, StringText, HasRefusal, CallOf;
    var calls := CallsIn(items);
    of := EditsFollowItems(items, calls, log, known);
    var edits := AnswerEdits(items, calls, log, known);
    forall k | 0 <= k < |of|
      ensures RefusedAndReplaced(items, of[k], log, known, edits[k])
    {
      EditIs(items[of[k]], calls, log, known);
      var answer := AnswerOf(items[of[k]], calls, log, known).value;
      AnswerIs(items, of[k], log, known, answer);
    }
    forall i, call, answer | 0 <= i < |items| && Refused(items, i, log, known, call, answer) && HasRefusal(items[i])
      ensures i in of
    {
      AnswerIs(items, i, log, known, answer);
      EditIs(items[i], calls, log, known);
    }
  }

  // ---- what stays ----

  /**
   In the request that is sent, every item stands as the client wrote it unless it answers a call with
   the refusal's wording: at `at`, with all that follows it.
   */
  lemma OtherItemsStay(body: string, c: Completion, i: nat) returns (at: nat)
    requires ReadTop(body).Some?
    requires Proper(ReadTop(body).value.input, |body|) && i < |ItemsIn(body, ReadTop(body).value.input, c.seen)|
    requires var items := ItemsIn(body, ReadTop(body).value.input, c.seen);
      forall call, answer :: !Refused(items, i, c.log, c.known, call, answer)
    ensures var item := ItemsIn(body, ReadTop(body).value.input, c.seen)[i];
      && at <= |Completed(body, c)|
      && Completed(body, c)[at..] == item.text + Substituted(body, EditsOf(body, c), item.start + |item.text|)
  {
    hide ReadTop, ItemsIn, Refused, Substituted, EditsOf;
    var items := ItemsIn(body, ReadTop(body).value.input, c.seen);
    var item, edits := items[i], EditsOf(body, c);
    EditsOfAreDisjoint(body, c);
    NoEditIn(body, c, i);
    ItemStands(body, ReadTop(body).value.input, c.seen, i);
    var left := SplitAt(body, edits, 0, item.start);
    Untouched(body, edits, item.start, item.start + |item.text|);
    at := |left|;
  }

  lemma NoEditIn(body: string, c: Completion, i: nat)
    requires ReadTop(body).Some?
    requires Proper(ReadTop(body).value.input, |body|) && i < |ItemsIn(body, ReadTop(body).value.input, c.seen)|
    requires var items := ItemsIn(body, ReadTop(body).value.input, c.seen);
      forall call, answer :: !Refused(items, i, c.log, c.known, call, answer)
    ensures var item := ItemsIn(body, ReadTop(body).value.input, c.seen)[i];
      && Boundary(EditsOf(body, c), item.start)
      && forall edit :: edit in EditsOf(body, c) ==> !(item.start <= edit.start < item.start + |item.text|)
  {
    hide ReadTop, ItemsIn, AnswerEdit, AnswerOf, Refused, CallsIn, EditsOf;
    var items := ItemsIn(body, ReadTop(body).value.input, c.seen);
    var own := AnswerEdit(items[i], CallsIn(items), c.log, c.known);
    EditsAtItem(body, c, i);
    EditIs(items[i], CallsIn(items), c.log, c.known);
    if own.Some? {
      AnswerIs(items, i, c.log, c.known, AnswerOf(items[i], CallsIn(items), c.log, c.known).value);
    }
  }
}
