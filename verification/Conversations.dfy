/**
 The identifiers a conversation keeps: a bounded table whose least recently used entry gives way.

 Identifiers drawn are distinct: they are numbers from one counter. A digest names an item by its
 place and its text.
 */
module Conversations {
  import opened Basics

  const TTL: nat := 24 * 3600 * 1_000_000_000
  const LIMIT: nat := 2048

  type Id = nat

  /** What a turn reads of an item; `prefixed` when Codex gives such an item an identifier. */
  datatype Item = Item(digest: string, byUser: bool, prefixed: bool)

  datatype Conversation = Conversation(
    threadId: Id,
    windowId: Id,
    turnId: Option<Id>,
    lastUser: string,
    itemIds: map<string, Id>,
    used: nat)

  datatype Turn = Turn(threadId: Id, windowId: Id, turnId: Id, itemIds: seq<Option<Id>>)

  type Table = map<string, Conversation>

  // ---- one conversation ----

  /** The digest of the last item the user wrote, or the empty string. */
  function LastUser(items: seq<Item>): string
  {
    if items == [] then ""
    else if items[|items| - 1].byUser then items[|items| - 1].digest
    else LastUser(items[..|items| - 1])
  }

  /** The last item of the user is the one behind which none is the user's. */
  lemma {:induction false} LastUserIs(items: seq<Item>, i: nat)
    ensures (forall k :: 0 <= k < |items| ==> !items[k].byUser) ==> LastUser(items) == ""
    ensures i < |items| && items[i].byUser && (forall k :: i < k < |items| ==> !items[k].byUser) ==>
      LastUser(items) == items[i].digest
  {
    if items != [] {
      LastUserIs(items[..|items| - 1], i);
    }
  }

  function Spoken(c: Conversation, items: seq<Item>, now: nat, next: Id): Conversation
  {
    if c.turnId.None? || LastUser(items) != c.lastUser
    then c.(used := now, turnId := Some(next), lastUser := LastUser(items))
    else c.(used := now)
  }

  /** Every item Codex would number gets its identifier: the one it has, or a new one. */
  function Numbered(ids: map<string, Id>, items: seq<Item>, next: Id): (map<string, Id>, Id)
  {
    if items == [] then (ids, next)
    else
      var (before, free) := Numbered(ids, items[..|items| - 1], next);
      var item := items[|items| - 1];
      if item.prefixed && item.digest !in before then (before[item.digest := free], free + 1) else (before, free)
  }

  predicate NamesPrefixed(items: seq<Item>, digest: string)
  {
    exists i :: 0 <= i < |items| && items[i].prefixed && items[i].digest == digest
  }

  lemma {:induction false} NumberedIs(ids: map<string, Id>, items: seq<Item>, next: Id)
    ensures var (after, free) := Numbered(ids, items, next);
      && free >= next
      && (forall d :: d in ids ==> d in after && after[d] == ids[d])
      && (forall i :: 0 <= i < |items| && items[i].prefixed ==> items[i].digest in after)
      && (forall d :: d in after && d !in ids ==> next <= after[d] < free && NamesPrefixed(items, d))
      && (forall d, e :: d in after && e in after && d != e && d !in ids && e !in ids ==> after[d] != after[e])
  {
    if items != [] {
      NumberedIs(ids, items[..|items| - 1], next);
    }
  }

  // ---- the table ----

  ghost predicate Young(c: Conversation, now: nat)
  {
    now < c.used + TTL
  }

  /** What is left of the table when a new conversation needs room: the expired go, then the longest unused. */
  ghost predicate MadeRoom(before: Table, after: Table, now: nat)
  {
    && (forall k :: k in after ==> k in before && after[k] == before[k] && Young(before[k], now))
    && |after| < LIMIT
    && forall k :: k in before && Young(before[k], now) && k !in after ==>
         |after| == LIMIT - 1 && forall j :: j in after ==> before[k].used <= after[j].used
  }

  /** One turn, from the table and counter before it to those after. */
  ghost predicate Turned(before: Table, after: Table, key: string, items: seq<Item>, now: nat, next: Id, free: Id, turn: Turn)
  {
    if key in before then Answered(before, after, key, before[key], items, now, next, free, turn)
    else
      exists room :: MadeRoom(before, room, now)
        && Answered(room, after, key, Conversation(next, next + 1, None, "", map[], now), items, now, next + 2, free, turn)
  }

  ghost predicate Answered(room: Table, after: Table, key: string, c: Conversation, items: seq<Item>, now: nat, next: Id, free: Id, turn: Turn)
  {
    var spoken := Spoken(c, items, now, next);
    var (ids, last) := Numbered(c.itemIds, items, next + 1);
    && spoken.turnId.Some?
    && after == room[key := spoken.(itemIds := ids)] && free == last
    && turn.threadId == c.threadId && turn.windowId == c.windowId && turn.turnId == spoken.turnId.value
    && |turn.itemIds| == |items|
    && forall i :: 0 <= i < |items| ==>
         turn.itemIds[i] == if items[i].prefixed && items[i].digest in ids then Some(ids[items[i].digest]) else None
  }

  class Conversations {
    var entries: Table
    var next: Id

    constructor ()
      ensures entries == map[] && next == 0
    {
      entries, next := map[], 0;
    }

    method Expire(now: nat)
      modifies this`entries
      ensures forall k :: k in entries <==> k in old(entries) && Young(old(entries)[k], now)
      ensures forall k :: k in entries ==> entries[k] == old(entries)[k]
    {
      entries := map k | k in entries && now < entries[k].used + TTL :: entries[k];
    }

    /** The entry unused for longest; any of them when several are. */
    method Oldest() returns (oldest: string)
      requires entries != map[]
      ensures oldest in entries && forall k :: k in entries ==> entries[oldest].used <= entries[k].used
    {
      var left := entries.Keys;
      oldest :| oldest in left;
      left := left - {oldest};
      while left != {}
        invariant oldest in entries && left <= entries.Keys
        invariant forall k :: k in entries && k !in left ==> entries[oldest].used <= entries[k].used
      {
        var k :| k in left;
        if entries[k].used < entries[oldest].used {
          oldest := k;
        }
        left := left - {k};
      }
    }

    method MakeRoom(now: nat)
      modifies this`entries
      ensures MadeRoom(old(entries), entries, now)
    {
      Expire(now);
      ghost var young := entries;
      while |entries| >= LIMIT
        invariant forall k :: k in entries ==> k in young && entries[k] == young[k]
        invariant forall k :: k in young && k !in entries ==> forall j :: j in entries ==> young[k].used <= entries[j].used
        invariant |entries| >= LIMIT - 1 || entries == young
        decreases |entries|
      {
        assert entries != map[];
        var oldest := Oldest();
        ghost var before := entries;
        entries := entries - {oldest};
        OneLess(before, oldest);
      }
    }

    /** `Conversations::turn`. */
    method TakeTurn(key: string, items: seq<Item>, now: nat) returns (turn: Turn)
      modifies this
      ensures Turned(old(entries), entries, key, items, now, old(next), next, turn)
    {
      var c;
      ghost var room;
      if key in entries {
        c := entries[key];
        room := entries;
      } else {
        MakeRoom(now);
        room := entries;
        c := Conversation(next, next + 1, None, "", map[], now);
        next := next + 2;
      }
      ghost var given, start := c, next;
      c := c.(used := now);
      var lastUser := FindLastUser(items);
      if c.turnId.None? || lastUser != c.lastUser {
        c := c.(turnId := Some(next), lastUser := lastUser);
      }
      next := next + 1;
      var ids: seq<Option<Id>>;
      var itemIds;
      itemIds, ids := NumberItems(c.itemIds, items);
      c := c.(itemIds := itemIds);
      entries := entries[key := c];
      turn := Turn(c.threadId, c.windowId, c.turnId.value, ids);
      assert Answered(room, entries, key, given, items, now, start, next, turn);
    }

    method FindLastUser(items: seq<Item>) returns (digest: string)
      ensures digest == LastUser(items)
    {
      var i := |items|;
      assert items[..i] == items;
      while i > 0 && !items[i - 1].byUser
        invariant 0 <= i <= |items| && LastUser(items) == LastUser(items[..i])
      {
        i := i - 1;
        assert items[..i + 1][..i] == items[..i];
      }
      return if i > 0 then items[i - 1].digest else "";
    }

    method NumberItems(given: map<string, Id>, items: seq<Item>) returns (itemIds: map<string, Id>, ids: seq<Option<Id>>)
      modifies this`next
      ensures (itemIds, next) == Numbered(given, items, old(next))
      ensures |ids| == |items| && forall i :: 0 <= i < |items| ==>
        ids[i] == if items[i].prefixed && items[i].digest in itemIds then Some(itemIds[items[i].digest]) else None
    {
      itemIds, ids := given, [];
      assert items[..0] == [];
      for i := 0 to |items|
        invariant (itemIds, next) == Numbered(given, items[..i], old(next))
        invariant |ids| == i && forall k :: 0 <= k < i ==>
          ids[k] == if items[k].prefixed && items[k].digest in itemIds then Some(itemIds[items[k].digest]) else None
        invariant forall k :: 0 <= k < i && items[k].prefixed ==> items[k].digest in itemIds
      {
        assert items[..i + 1][..i] == items[..i];
        if items[i].prefixed {
          if items[i].digest !in itemIds {
            itemIds := itemIds[items[i].digest := next];
            next := next + 1;
          }
          ids := ids + [Some(itemIds[items[i].digest])];
        } else {
          ids := ids + [None];
        }
      }
      assert items[..|items|] == items;
    }
  }

  lemma OneLess(m: Table, k: string)
    requires k in m
    ensures |m - {k}| == |m| - 1
  {
    var r := m - {k};
    assert m.Keys == r.Keys + {k};
    assert |m| == |m.Keys| && |r| == |r.Keys|;
  }

  // ---- one turn ----

  lemma {:induction false} OneMoreKey(t: Table, key: string, c: Conversation)
    ensures |t[key := c]| == if key in t then |t| else |t| + 1
  {
    var u := t[key := c];
    assert u.Keys == t.Keys + {key};
    assert |u| == |u.Keys| && |t| == |t.Keys|;
  }

  /** The table never holds more than its limit. */
  lemma TableStaysBounded(before: Table, after: Table, key: string, items: seq<Item>, now: nat, next: Id, free: Id, turn: Turn)
    requires |before| <= LIMIT && Turned(before, after, key, items, now, next, free, turn)
    ensures |after| <= LIMIT && key in after
  {
    hide Answered, Young, Spoken, Numbered;
    if key in before {
      TurnIs(before, after, key, before[key], items, now, next, free, turn);
      OneMoreKey(before, key, after[key]);
    } else {
      var c := Conversation(next, next + 1, None, "", map[], now);
      var room :| MadeRoom(before, room, now) && Answered(room, after, key, c, items, now, next + 2, free, turn);
      TurnIs(room, after, key, c, items, now, next + 2, free, turn);
      OneMoreKey(room, key, after[key]);
    }
  }

  /** What a turn makes of its conversation. */
  lemma TurnIs(room: Table, after: Table, key: string, c: Conversation, items: seq<Item>, now: nat, next: Id, free: Id, turn: Turn)
    requires Answered(room, after, key, c, items, now, next, free, turn)
    ensures key in after && after == room[key := after[key]] && after[key].used == now && free > next
    ensures turn.threadId == c.threadId == after[key].threadId && turn.windowId == c.windowId == after[key].windowId
    ensures after[key].turnId == Some(turn.turnId) && after[key].lastUser == LastUser(items)
    ensures turn.turnId == (if c.turnId.Some? && LastUser(items) == c.lastUser then c.turnId.value else next)
    ensures forall d :: d in c.itemIds ==> d in after[key].itemIds && after[key].itemIds[d] == c.itemIds[d]
    ensures forall i :: 0 <= i < |items| && items[i].prefixed ==>
      items[i].digest in after[key].itemIds && turn.itemIds[i] == Some(after[key].itemIds[items[i].digest])
    ensures forall i :: 0 <= i < |items| && !items[i].prefixed ==> turn.itemIds[i] == None
  {
    NumberedIs(c.itemIds, items, next + 1);
  }

  // ---- runs ----

  datatype Event = Event(key: string, items: seq<Item>, now: nat)

  /** From an empty table, one turn after another at strictly later times. */
  ghost predicate Run(events: seq<Event>, tables: seq<Table>, nexts: seq<Id>, turns: seq<Turn>)
  {
    && |tables| == |nexts| == |events| + 1 && |turns| == |events|
    && tables[0] == map[]
    && (forall i :: 0 <= i < |events| - 1 ==> events[i].now < events[i + 1].now)
    && forall i :: 0 <= i < |events| ==>
         Turned(tables[i], tables[i + 1], events[i].key, events[i].items, events[i].now, nexts[i], nexts[i + 1], turns[i])
  }

  lemma {:induction false} LaterIsLater(events: seq<Event>, i: nat, j: nat)
    requires i < j < |events| && forall k :: 0 <= k < |events| - 1 ==> events[k].now < events[k + 1].now
    ensures events[i].now < events[j].now
  {
    if i + 1 < j {
      LaterIsLater(events, i, j - 1);
    }
  }

  /** After each turn the table is within its limit, and nothing in it was used later than that turn. */
  lemma {:induction false} TableAfter(events: seq<Event>, tables: seq<Table>, nexts: seq<Id>, turns: seq<Turn>, m: nat)
    requires Run(events, tables, nexts, turns) && m <= |events|
    ensures |tables[m]| <= LIMIT
    ensures m > 0 ==> forall k :: k in tables[m] ==> tables[m][k].used <= events[m - 1].now
    ensures m > 0 ==> events[m - 1].key in tables[m] && tables[m][events[m - 1].key].used == events[m - 1].now
    ensures m > 0 ==> forall k :: k in tables[m] && k != events[m - 1].key ==> tables[m][k].used < events[m - 1].now
  {
    hide Turned;
    if m > 0 {
      var e := events[m - 1];
      TableAfter(events, tables, nexts, turns, m - 1);
      assert m > 1 ==> events[m - 2].now < events[m - 1].now;
      TableStaysBounded(tables[m - 1], tables[m], e.key, e.items, e.now, nexts[m - 1], nexts[m], turns[m - 1]);
      OthersStay(tables[m - 1], tables[m], e.key, e.items, e.now, nexts[m - 1], nexts[m], turns[m - 1]);
    }
  }

  lemma OthersStay(before: Table, after: Table, key: string, items: seq<Item>, now: nat, next: Id, free: Id, turn: Turn)
    requires Turned(before, after, key, items, now, next, free, turn)
    ensures forall k :: k in after && k != key ==> k in before && after[k] == before[k]
    ensures key in after && after[key].used == now
  {
    hide Answered, Young;
    if key in before {
      TurnIs(before, after, key, before[key], items, now, next, free, turn);
    } else {
      var c := Conversation(next, next + 1, None, "", map[], now);
      var room :| MadeRoom(before, room, now) && Answered(room, after, key, c, items, now, next + 2, free, turn);
      TurnIs(room, after, key, c, items, now, next + 2, free, turn);
    }
  }

  /** A turn of another key evicts an entry only when as many newer ones are left as the table holds besides the new one. */
  lemma Evicted(before: Table, after: Table, key: string, items: seq<Item>, now: nat, next: Id, free: Id, turn: Turn, k: string)
    requires Turned(before, after, key, items, now, next, free, turn) && k in before && k != key && Young(before[k], now)
    ensures k in after ==> after[k] == before[k]
    ensures k !in after ==> key !in before && |after| == LIMIT
    ensures k !in after ==> forall j :: j in after && j != key ==> before[k].used <= after[j].used
  {
    hide Answered;
    if key in before {
      TurnIs(before, after, key, before[key], items, now, next, free, turn);
    } else {
      var c := Conversation(next, next + 1, None, "", map[], now);
      var room :| MadeRoom(before, room, now) && Answered(room, after, key, c, items, now, next + 2, free, turn);
      TurnIs(room, after, key, c, items, now, next + 2, free, turn);
      OneMoreKey(room, key, after[key]);
    }
  }

  /**
   A conversation that is idle for less than a day, while at most 2047 other keys are used, stays in
   the table as it was.
   */
  lemma {:induction false} IdleConversationStays(events: seq<Event>, tables: seq<Table>, nexts: seq<Id>, turns: seq<Turn>,
                                               i: nat, m: nat, others: set<string>)
    requires Run(events, tables, nexts, turns) && i < m <= |events|
    requires |others| <= LIMIT - 1 && events[i].key !in others
    requires forall e :: i < e < m ==> events[e].key in others && events[e].now < events[i].now + TTL
    ensures var k := events[i].key;
      && k in tables[i + 1] && k in tables[m] && tables[m][k] == tables[i + 1][k] && tables[m][k].used == events[i].now
      && forall j :: j in tables[m] && j != k && tables[m][j].used >= events[i].now ==> j in others
  {
    hide Turned, TTL;
    var k := events[i].key;
    TableAfter(events, tables, nexts, turns, i + 1);
    if m > i + 1 {
      var e := events[m - 1];
      IdleConversationStays(events, tables, nexts, turns, i, m - 1, others);
      LaterIsLater(events, i, m - 1);
      Evicted(tables[m - 1], tables[m], e.key, e.items, e.now, nexts[m - 1], nexts[m], turns[m - 1], k);
      OthersStay(tables[m - 1], tables[m], e.key, e.items, e.now, nexts[m - 1], nexts[m], turns[m - 1]);
      if k !in tables[m] {
        forall j | j in tables[m].Keys ensures j in others {
          assert j != e.key ==> j in tables[m - 1];
        }
        assert |tables[m]| == |tables[m].Keys|;
        Smaller(tables[m].Keys, others);
        assert false;
      }
    }
  }

  lemma {:induction false} Smaller(a: set<string>, b: set<string>)
    requires a <= b
    ensures |a| <= |b|
  {
    var rest := b - a;
    assert b == a + rest && |a + rest| == |a| + |rest|;
  }

  /**
   So its next turn has the same thread, the identifiers of the items sent again, and the same turn
   exactly when the user has said nothing since.
   */
  lemma ConversationIsContinued(events: seq<Event>, tables: seq<Table>, nexts: seq<Id>, turns: seq<Turn>,
                                i: nat, j: nat, others: set<string>)
    requires Run(events, tables, nexts, turns) && i < j < |events| && events[i].key == events[j].key
    requires |others| <= LIMIT - 1 && events[i].key !in others
    requires forall e :: i < e < j ==> events[e].key in others && events[e].now < events[i].now + TTL
    ensures turns[j].threadId == turns[i].threadId && turns[j].windowId == turns[i].windowId
    ensures forall x: nat, y: nat :: Resent(events[i].items, x, events[j].items, y) ==>
      x < |turns[i].itemIds| && y < |turns[j].itemIds| && turns[i].itemIds[x] == turns[j].itemIds[y]
    ensures turns[j].turnId == turns[i].turnId <==> LastUser(events[j].items) == LastUser(events[i].items)
  {
    hide Run, LastUser, MadeRoom, Answered;
    IdleConversationStays(events, tables, nexts, turns, i, j, others);
    var k := events[i].key;
    TurnAt(events, tables, nexts, turns, i);
    TurnAt(events, tables, nexts, turns, j);
    DrawnAlong(events, tables, nexts, turns, j);
  }

  /** An item Codex numbers, at place x of one request and place y of another. */
  predicate Resent(before: seq<Item>, x: nat, after: seq<Item>, y: nat)
  {
    x < |before| && y < |after| && before[x].prefixed && before[x] == after[y]
  }

  /** Turn m of a run, told of the conversation it left. */
  lemma TurnAt(events: seq<Event>, tables: seq<Table>, nexts: seq<Id>, turns: seq<Turn>, m: nat)
    requires Run(events, tables, nexts, turns) && m < |events|
    ensures |tables| == |nexts| == |events| + 1 && |turns| == |events|
    ensures var k, items := events[m].key, events[m].items;
      && k in tables[m + 1] && |turns[m].itemIds| == |items|
      && tables[m + 1][k].threadId == turns[m].threadId && tables[m + 1][k].windowId == turns[m].windowId
      && tables[m + 1][k].turnId == Some(turns[m].turnId) && tables[m + 1][k].lastUser == LastUser(items)
      && (forall x :: 0 <= x < |items| && items[x].prefixed ==>
            items[x].digest in tables[m + 1][k].itemIds && turns[m].itemIds[x] == Some(tables[m + 1][k].itemIds[items[x].digest]))
      && (k in tables[m] ==>
            && turns[m].threadId == tables[m][k].threadId && turns[m].windowId == tables[m][k].windowId
            && (forall d :: d in tables[m][k].itemIds ==>
                  d in tables[m + 1][k].itemIds && tables[m + 1][k].itemIds[d] == tables[m][k].itemIds[d])
            && (tables[m][k].turnId.Some? && LastUser(items) == tables[m][k].lastUser ==>
                  turns[m].turnId == tables[m][k].turnId.value)
            && (LastUser(items) != tables[m][k].lastUser ==> turns[m].turnId == nexts[m]))
  {
    hide LastUser, Young;
    var e := events[m];
    var before, after := tables[m], tables[m + 1];
    assert Turned(before, after, e.key, e.items, e.now, nexts[m], nexts[m + 1], turns[m]);
    if e.key in before {
      TurnIs(before, after, e.key, before[e.key], e.items, e.now, nexts[m], nexts[m + 1], turns[m]);
    } else {
      var c := Conversation(nexts[m], nexts[m] + 1, None, "", map[], e.now);
      var room :| MadeRoom(before, room, e.now)
        && Answered(room, after, e.key, c, e.items, e.now, nexts[m] + 2, nexts[m + 1], turns[m]);
      TurnIs(room, after, e.key, c, e.items, e.now, nexts[m] + 2, nexts[m + 1], turns[m]);
    }
  }

  // ---- identifiers are new ----

  predicate AllBelow(c: Conversation, next: Id)
  {
    && c.threadId < next && c.windowId < next && (c.turnId.Some? ==> c.turnId.value < next)
    && forall d :: d in c.itemIds ==> c.itemIds[d] < next
  }

  ghost predicate Injective(ids: map<string, Id>)
  {
    forall d, e :: d in ids && e in ids && d != e ==> ids[d] != ids[e]
  }

  /** Every identifier in the table was drawn, and no two items of a conversation share one. */
  ghost predicate Drawn(t: Table, next: Id)
  {
    forall k :: k in t ==> AllBelow(t[k], next) && Injective(t[k].itemIds)
  }

  /** Two different items of a turn have different identifiers. */
  ghost predicate Told(items: seq<Item>, ids: seq<Option<Id>>)
  {
    && |items| == |ids|
    && forall x, y :: 0 <= x < |items| && 0 <= y < |items| && ids[x].Some? && ids[x] == ids[y] ==>
         items[x].digest == items[y].digest
  }

  predicate TurnBelow(turn: Turn, next: Id)
  {
    && turn.threadId < next && turn.windowId < next && turn.turnId < next
    && forall x :: 0 <= x < |turn.itemIds| && turn.itemIds[x].Some? ==> turn.itemIds[x].value < next
  }

  /** In every run the identifiers in use, and those of the turns so far, were drawn before. */
  lemma {:induction false} DrawnAlong(events: seq<Event>, tables: seq<Table>, nexts: seq<Id>, turns: seq<Turn>, m: nat)
    requires Run(events, tables, nexts, turns) && m <= |events|
    ensures Drawn(tables[m], nexts[m]) && forall i :: 0 <= i < m ==> TurnBelow(turns[i], nexts[m])
  {
    hide LastUser, MadeRoom, Young, Turned, AllBelow, TurnBelow, Injective;
    if m > 0 {
      DrawnAlong(events, tables, nexts, turns, m - 1);
      var e := events[m - 1];
      var given := Begun(tables, nexts, turns, e, m - 1);
      StillBelow(tables[m - 1], nexts[m - 1], nexts[m]);
      forall i | 0 <= i < m - 1 ensures TurnBelow(turns[i], nexts[m]) {
        TurnStillBelow(turns[i], nexts[m - 1], nexts[m]);
      }
    }
  }

  /** The conversation a turn begins with: the one in the table, or a new one. */
  lemma Begun(tables: seq<Table>, nexts: seq<Id>, turns: seq<Turn>, e: Event, m: nat) returns (given: Conversation)
    requires m + 1 < |tables| && |nexts| == |tables| && m < |turns|
    requires Turned(tables[m], tables[m + 1], e.key, e.items, e.now, nexts[m], nexts[m + 1], turns[m])
    requires Drawn(tables[m], nexts[m])
    ensures given == if e.key in tables[m] then tables[m][e.key] else Conversation(nexts[m], nexts[m] + 1, None, "", map[], e.now)
    ensures nexts[m] < nexts[m + 1] && TurnBelow(turns[m], nexts[m + 1]) && Drawn(tables[m + 1], nexts[m + 1])
    ensures turns[m].threadId == given.threadId && turns[m].windowId == given.windowId
    ensures given.turnId.Some? && LastUser(e.items) == given.lastUser ==> turns[m].turnId == given.turnId.value
    ensures !(given.turnId.Some? && LastUser(e.items) == given.lastUser) ==>
      turns[m].turnId >= nexts[m] && turns[m].turnId != given.threadId && turns[m].turnId != given.windowId
    ensures |turns[m].itemIds| == |e.items| && forall x :: 0 <= x < |e.items| ==>
      && turns[m].itemIds[x].Some? == e.items[x].prefixed
      && (e.items[x].prefixed && e.items[x].digest in given.itemIds ==>
            turns[m].itemIds[x].value == given.itemIds[e.items[x].digest])
      && (e.items[x].prefixed && e.items[x].digest !in given.itemIds ==>
            turns[m].itemIds[x].value >= nexts[m]
            && turns[m].itemIds[x].value !in {given.threadId, given.windowId, turns[m].turnId})
    ensures Told(e.items, turns[m].itemIds)
  {
    hide LastUser, Young, Answered, MadeRoom, AllBelow, Injective, TurnBelow, Told;
    var next := nexts[m];
    if e.key in tables[m] {
      given := tables[m][e.key];
      OneTurn(tables[m], tables[m + 1], given, e, next, next, nexts[m + 1], turns[m]);
    } else {
      given := Conversation(next, next + 1, None, "", map[], e.now);
      var room :| MadeRoom(tables[m], room, e.now)
        && Answered(room, tables[m + 1], e.key, given, e.items, e.now, next + 2, nexts[m + 1], turns[m]);
      RoomDrawn(tables[m], room, e.now, next);
      OneTurn(room, tables[m + 1], given, e, next, next + 2, nexts[m + 1], turns[m]);
    }
  }

  lemma RoomDrawn(before: Table, room: Table, now: nat, next: Id)
    requires MadeRoom(before, room, now) && Drawn(before, next)
    ensures Drawn(room, next) && AllBelow(Conversation(next, next + 1, None, "", map[], now), next + 2)
    ensures Injective(map[])
  {
  }

  lemma OneTurn(room: Table, after: Table, c: Conversation, e: Event, first: Id, next: Id, free: Id, turn: Turn)
    requires Answered(room, after, e.key, c, e.items, e.now, next, free, turn)
    requires Drawn(room, first) && first <= next && AllBelow(c, next) && Injective(c.itemIds)
    ensures next < free && TurnBelow(turn, free) && Drawn(after, free)
    ensures turn.threadId == c.threadId && turn.windowId == c.windowId
    ensures c.turnId.Some? && LastUser(e.items) == c.lastUser ==> turn.turnId == c.turnId.value
    ensures !(c.turnId.Some? && LastUser(e.items) == c.lastUser) ==>
      turn.turnId == next && turn.turnId != c.threadId && turn.turnId != c.windowId
    ensures |turn.itemIds| == |e.items| && forall x :: 0 <= x < |e.items| ==>
      && turn.itemIds[x].Some? == e.items[x].prefixed
      && (e.items[x].prefixed && e.items[x].digest in c.itemIds ==> turn.itemIds[x].value == c.itemIds[e.items[x].digest])
      && (e.items[x].prefixed && e.items[x].digest !in c.itemIds ==>
            turn.itemIds[x].value > next && turn.itemIds[x].value !in {c.threadId, c.windowId, turn.turnId})
    ensures Told(e.items, turn.itemIds)
  {
    hide LastUser, Numbered;
    NumberedIs(c.itemIds, e.items, next + 1);
    TurnIs(room, after, e.key, c, e.items, e.now, next, free, turn);
    forall k | k in after ensures AllBelow(after[k], free) && Injective(after[k].itemIds) {
      assert k != e.key ==> k in room && after[k] == room[k];
    }
  }

  lemma StillBelow(t: Table, next: Id, free: Id)
    requires Drawn(t, next) && next <= free
    ensures Drawn(t, free)
  {
  }

  lemma TurnStillBelow(turn: Turn, next: Id, free: Id)
    requires TurnBelow(turn, next) && next <= free
    ensures TurnBelow(turn, free)
  {
  }

  predicate Mentions(turn: Turn, id: Id)
  {
    turn.threadId == id || turn.windowId == id || turn.turnId == id || Some(id) in turn.itemIds
  }

  /**
   What a turn draws, no earlier turn of any conversation has: the thread and the window of a new
   conversation, the turn where it is not continued, and the identifier of every item not sent before.
   */
  lemma DrawnAnew(events: seq<Event>, tables: seq<Table>, nexts: seq<Id>, turns: seq<Turn>, i: nat, j: nat)
    requires Run(events, tables, nexts, turns) && i < j < |events|
    ensures var k, items := events[j].key, events[j].items;
      && |turns[j].itemIds| == |items|
      && (k !in tables[j] ==>
            && !Mentions(turns[i], turns[j].threadId) && !Mentions(turns[i], turns[j].windowId)
            && turns[j].threadId != turns[j].windowId)
      && (k !in tables[j] || tables[j][k].lastUser != LastUser(items) ==>
            && !Mentions(turns[i], turns[j].turnId)
            && turns[j].turnId != turns[j].threadId && turns[j].turnId != turns[j].windowId)
      && (forall x :: 0 <= x < |items| ==> turns[j].itemIds[x].Some? == items[x].prefixed)
      && (forall x :: 0 <= x < |items| && items[x].prefixed && (k !in tables[j] || items[x].digest !in tables[j][k].itemIds) ==>
            && !Mentions(turns[i], turns[j].itemIds[x].value)
            && turns[j].itemIds[x].value !in {turns[j].threadId, turns[j].windowId, turns[j].turnId})
      && Told(items, turns[j].itemIds)
  {
    hide LastUser, Turned, Drawn;
    DrawnAlong(events, tables, nexts, turns, j);
    var given := Begun(tables, nexts, turns, events[j], j);
    assert forall id :: id >= nexts[j] ==> !Mentions(turns[i], id);
  }
}
