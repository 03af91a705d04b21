/**
 The order of forwarded WebSocket headers.

 The library puts five headers of its own into the request, and removes them again before it writes
 the rest; each removal moves the map's last entry into the freed place.
 */
module WsHeaders {
  import opened Basics

  // ---- the library ----

  function Find(s: seq<string>, name: string): (i: nat)
    ensures i <= |s| && (i < |s| ==> s[i] == name) && forall k :: 0 <= k < i ==> s[k] != name
  {
    if s == [] || s[0] == name then 0 else 1 + Find(s[1..], name)
  }

  /** Removing an entry moves the last one into its place. */
  function SwapRemove(s: seq<string>, name: string): seq<string>
  {
    var i := Find(s, name);
    if i == |s| then s
    else if i == |s| - 1 then s[..|s| - 1]
    else s[i := s[|s| - 1]][..|s| - 1]
  }

  function RemoveAll(s: seq<string>, names: seq<string>): seq<string>
    decreases |names|
  {
    if names == [] then s else RemoveAll(SwapRemove(s, names[0]), names[1..])
  }

  // ---- the list the pool appends ----

  const LIBRARY_HEADERS: nat := 5

  function Reversed(s: seq<string>): (r: seq<string>)
    ensures |r| == |s| && forall i :: 0 <= i < |s| ==> r[i] == s[|s| - 1 - i]
  {
    seq(|s|, i requires 0 <= i < |s| => s[|s| - 1 - i])
  }

  function Rotated(names: seq<string>): seq<string>
  {
    if |names| >= LIBRARY_HEADERS then names[LIBRARY_HEADERS..] + Reversed(names[..LIBRARY_HEADERS]) else names
  }

  /** What has been removed so far has been filled from the back of the list. */
  function Filled(library: seq<string>, rest: seq<string>, k: nat): seq<string>
    requires k <= |library| && k <= |rest|
  {
    Reversed(rest[|rest| - k..]) + library[k..] + rest[..|rest| - k]
  }

  lemma RotatedLength(names: seq<string>)
    ensures |Rotated(names)| == |names|
  {
  }

  lemma NothingFilled(library: seq<string>, rest: seq<string>)
    ensures Filled(library, rest, 0) == library + rest
  {
    assert rest[|rest|..] == [] && Reversed([]) == [] && library[0..] == library && rest[..|rest|] == rest;
  }

  lemma FilledAt(library: seq<string>, rest: seq<string>, k: nat)
    requires k <= |library| && k <= |rest|
    ensures var r := Filled(library, rest, k);
      && |r| == |library| + |rest| - k
      && forall i :: 0 <= i < |r| ==>
           r[i] == if i < k then rest[|rest| - 1 - i] else if i < |library| then library[i] else rest[i - |library|]
  {
  }

  /** An entry that is not the last one gives its place to the last one. */
  lemma SwapAt(s: seq<string>, k: nat)
    requires k < |s| - 1 && forall i :: 0 <= i < k ==> s[i] != s[k]
    ensures SwapRemove(s, s[k]) == s[..k] + [s[|s| - 1]] + s[k + 1..|s| - 1]
  {
    assert Find(s, s[k]) == k;
  }

  lemma OneRemoval(library: seq<string>, rest: seq<string>, k: nat)
    requires k < |library| && k < |rest| && Distinct(library + rest)
    ensures SwapRemove(Filled(library, rest, k), library[k]) == Filled(library, rest, k + 1)
  {
    hide *;
    var before, after := Filled(library, rest, k), Filled(library, rest, k + 1);
    FilledAt(library, rest, k);
    FilledAt(library, rest, k + 1);
    forall i | 0 <= i < k ensures before[i] != before[k] {
      Differ(library, rest, k, |rest| - 1 - i);
    }
    SwapAt(before, k);
    assert before[..k] + [before[|before| - 1]] + before[k + 1..|before| - 1] == after;
  }

  lemma Differ(library: seq<string>, rest: seq<string>, i: nat, j: nat)
    requires i < |library| && j < |rest| && Distinct(library + rest)
    ensures library[i] != rest[j]
  {
    assert (library + rest)[i] != (library + rest)[|library| + j];
  }

  lemma {:induction false} Removals(library: seq<string>, rest: seq<string>, k: nat)
    requires k <= |library| <= |rest| && Distinct(library + rest)
    ensures RemoveAll(Filled(library, rest, k), library[k..]) == Filled(library, rest, |library|)
    decreases |library| - k
  {
    if k < |library| {
      OneRemoval(library, rest, k);
      assert library[k..][0] == library[k] && library[k..][1..] == library[k + 1..];
      Removals(library, rest, k + 1);
    } else {
      assert library[k..] == [];
    }
  }

  /** With five or more names, what the library writes is exactly the wire order. */
  lemma RotationRestoresOrder(library: seq<string>, names: seq<string>)
    requires |library| == LIBRARY_HEADERS && |names| >= LIBRARY_HEADERS && Distinct(library + names)
    ensures RemoveAll(library + Rotated(names), library) == names
  {
    hide Filled, RemoveAll, Rotated;
    var rest := Rotated(names);
    RotatedLength(names);
    RotatedDistinct(library, names);
    NothingFilled(library, rest);
    assert library[0..] == library;
    Removals(library, rest, 0);
    FilledBack(library, names);
  }

  /** Filling from the back of the rotated list restores the names it was made of. */
  lemma FilledBack(library: seq<string>, names: seq<string>)
    requires |library| == LIBRARY_HEADERS && |names| >= LIBRARY_HEADERS
    ensures Filled(library, Rotated(names), |library|) == names
  {
    var rest, n := Rotated(names), |names|;
    assert library[|library|..] == [];
    assert rest[..n - LIBRARY_HEADERS] == names[LIBRARY_HEADERS..];
    assert rest[n - LIBRARY_HEADERS..] == Reversed(names[..LIBRARY_HEADERS]);
    assert Reversed(Reversed(names[..LIBRARY_HEADERS])) == names[..LIBRARY_HEADERS];
    assert names == names[..LIBRARY_HEADERS] + names[LIBRARY_HEADERS..];
  }

  lemma RotatedDistinct(library: seq<string>, names: seq<string>)
    requires |library| == LIBRARY_HEADERS && |names| >= LIBRARY_HEADERS && Distinct(library + names)
    ensures Distinct(library + Rotated(names))
  {
    var all, n := library + Rotated(names), |names|;
    forall i | 0 <= i < |all| ensures all[i] == (library + names)[Origin(n, i)] {
    }
    forall i, j | 0 <= i < j < |all| ensures all[i] != all[j] {
      assert all[i] == (library + names)[Origin(n, i)] && all[j] == (library + names)[Origin(n, j)];
      assert Origin(n, i) < Origin(n, j) || Origin(n, j) < Origin(n, i);
    }
  }

  /** Where entry i of the rotated request stands in the unrotated one. */
  function Origin(n: nat, i: nat): (j: nat)
    requires n >= LIBRARY_HEADERS && i < LIBRARY_HEADERS + n
    ensures j < LIBRARY_HEADERS + n
  {
    if i < LIBRARY_HEADERS then i
    else if i < n then i + LIBRARY_HEADERS
    else LIBRARY_HEADERS + (LIBRARY_HEADERS + n - 1 - i)
  }

  /** With fewer names nothing is rotated: the library writes them backwards. */
  lemma FewNamesComeBackwards(library: seq<string>, names: seq<string>)
    requires |library| == LIBRARY_HEADERS && |names| < LIBRARY_HEADERS && Distinct(library + names)
    ensures RemoveAll(library + Rotated(names), library) == Reversed(names)
  {
    assert Rotated(names) == names;
    NothingFilled(library, names);
    FewRemovals(library, names, 0);
    assert library[0..] == library;
  }

  /** So the wire order comes out exactly when there are five names or more, or nothing to turn round. */
  lemma OrderRestoredExactly(library: seq<string>, names: seq<string>)
    requires |library| == LIBRARY_HEADERS && Distinct(library + names)
    ensures RemoveAll(library + Rotated(names), library) == names <==> |names| >= LIBRARY_HEADERS || |names| <= 1
  {
    hide RemoveAll, Rotated;
    if |names| >= LIBRARY_HEADERS {
      RotationRestoresOrder(library, names);
    } else {
      FewNamesComeBackwards(library, names);
      if |names| >= 2 {
        assert (library + names)[|library|] != (library + names)[|library| + |names| - 1];
        assert Reversed(names)[0] != names[0];
      } else {
        assert Reversed(names) == names;
      }
    }
  }

  lemma {:induction false} FewRemovals(library: seq<string>, names: seq<string>, k: nat)
    requires k <= |names| < |library| && Distinct(library + names)
    ensures RemoveAll(Filled(library, names, k), library[k..]) == Reversed(names)
    decreases |names| - k
  {
    if k < |names| {
      OneRemoval(library, names, k);
      assert library[k..][0] == library[k] && library[k..][1..] == library[k + 1..];
      FewRemovals(library, names, k + 1);
    } else {
      assert names[0..] == names && names[..0] == [];
      assert Filled(library, names, k) == Reversed(names) + library[k..];
      LibraryLast(Reversed(names), library, names, k);
    }
  }

  /** With only library headers behind it, the front stays as it is. */
  lemma LibraryLast(front: seq<string>, library: seq<string>, names: seq<string>, k: nat)
    requires k <= |library| && Distinct(library + names) && front == Reversed(names)
    ensures RemoveAll(front + library[k..], library[k..]) == front
  {
    var tail := library[k..];
    var all := library + names;
    forall i, j | 0 <= i < j < |front + tail| ensures (front + tail)[i] != (front + tail)[j] {
      var a := if i < |front| then |library| + (|names| - 1 - i) else k + (i - |front|);
      var b := if j < |front| then |library| + (|names| - 1 - j) else k + (j - |front|);
      assert (front + tail)[i] == all[a] && (front + tail)[j] == all[b];
      assert a < b || b < a;
    }
    forall i, j | 0 <= i < j < |tail| ensures tail[i] != tail[j] {
      assert all[k + i] != all[k + j];
    }
    LibraryGone(front, tail, tail);
  }

  lemma HasFirst(s: seq<string>)
    ensures s == [] || s[0] in s
  {
  }

  lemma {:induction false} LibraryGone(front: seq<string>, tail: seq<string>, todo: seq<string>)
    requires Distinct(front + tail) && Distinct(todo) && forall x :: x in tail <==> x in todo
    ensures RemoveAll(front + tail, todo) == front
    decreases |todo|
  {
    if todo == [] {
      HasFirst(tail);
      assert front + tail == front;
    } else {
      var name, all := todo[0], front + tail;
      assert name in tail;
      var i := Find(tail, name);
      var m :| 0 <= m < |tail| && tail[m] == name;
      assert all[|front| + i] == name;
      forall j | 0 <= j < |front| ensures front[j] != name {
        assert all[j] != all[|front| + i];
      }
      FindBehind(front, tail, name);
      var left := SwapRemove(tail, name);
      RemovedOne(tail, name, front);
      assert SwapRemove(all, name) == front + left;
      forall x ensures x in left <==> x in todo[1..] {
        assert x in todo <==> x == name || x in todo[1..];
        assert name !in todo[1..] by {
          assert forall j :: 0 < j < |todo| ==> todo[0] != todo[j];
        }
      }
      LibraryGone(front, left, todo[1..]);
    }
  }

  lemma {:induction false} FindBehind(front: seq<string>, tail: seq<string>, name: string)
    requires forall j :: 0 <= j < |front| ==> front[j] != name
    ensures Find(front + tail, name) == |front| + Find(tail, name)
  {
    if front != [] {
      FindBehind(front[1..], tail, name);
      assert (front + tail)[1..] == front[1..] + tail;
    } else {
      assert front + tail == tail;
    }
  }

  lemma RemovedOne(tail: seq<string>, name: string, front: seq<string>)
    requires Distinct(front + tail) && name in tail
    ensures forall x :: x in SwapRemove(tail, name) <==> x in tail && x != name
    ensures Distinct(front + SwapRemove(tail, name))
  {
    var i, last, left, all := Find(tail, name), |tail| - 1, SwapRemove(tail, name), front + tail;
    forall j, k | 0 <= j < k < |tail| ensures tail[j] != tail[k] {
      assert all[|front| + j] != all[|front| + k];
    }
    forall x | x in tail && x != name ensures x in left {
      var j :| 0 <= j < |tail| && tail[j] == x;
      assert left[if j == last then i else j] == x;
    }
    forall j, k | 0 <= j < k < |front + left| ensures (front + left)[j] != (front + left)[k] {
      var a := if j < |front| then j else if j - |front| == i then |front| + last else j;
      var b := if k < |front| then k else if k - |front| == i then |front| + last else k;
      assert (front + left)[j] == all[a] && (front + left)[k] == all[b];
      assert a < b || b < a;
    }
  }

  // ---- building it ----

  predicate Forwarded(name: string, order: seq<string>, dropped: seq<string>)
  {
    name !in order && name !in dropped
  }

  function Known(order: seq<string>, incoming: seq<string>): seq<string>
  {
    if order == [] then []
    else (if order[0] in incoming then [order[0]] else []) + Known(order[1..], incoming)
  }

  function Others(incoming: seq<string>, order: seq<string>, dropped: seq<string>): seq<string>
  {
    if incoming == [] then []
    else (if Forwarded(incoming[0], order, dropped) then [incoming[0]] else []) + Others(incoming[1..], order, dropped)
  }

  lemma {:induction false} KnownGrows(order: seq<string>, incoming: seq<string>, i: nat)
    requires i < |order|
    ensures Known(order[..i + 1], incoming) == Known(order[..i], incoming) + (if order[i] in incoming then [order[i]] else [])
  {
    if i > 0 {
      KnownGrows(order[1..], incoming, i - 1);
      assert order[..i + 1][1..] == order[1..][..i] && order[..i][1..] == order[1..][..i - 1];
    } else {
      assert order[..1] == [order[0]] && order[..1][1..] == [];
    }
  }

  lemma {:induction false} OthersGrows(incoming: seq<string>, order: seq<string>, dropped: seq<string>, i: nat)
    requires i < |incoming|
    ensures Others(incoming[..i + 1], order, dropped)
         == Others(incoming[..i], order, dropped) + (if Forwarded(incoming[i], order, dropped) then [incoming[i]] else [])
  {
    if i > 0 {
      OthersGrows(incoming[1..], order, dropped, i - 1);
      assert incoming[..i + 1][1..] == incoming[1..][..i] && incoming[..i][1..] == incoming[1..][..i - 1];
    } else {
      assert incoming[..1] == [incoming[0]] && incoming[..1][1..] == [];
    }
  }

  lemma {:induction false} KnownAreDistinct(order: seq<string>, incoming: seq<string>)
    requires Distinct(order)
    ensures Distinct(Known(order, incoming))
    ensures forall name :: name in Known(order, incoming) ==> name in order && name in incoming
  {
    if order != [] {
      KnownAreDistinct(order[1..], incoming);
      assert order[0] !in order[1..];
    }
  }

  lemma {:induction false} OthersAreDistinct(incoming: seq<string>, order: seq<string>, dropped: seq<string>)
    requires Distinct(incoming)
    ensures Distinct(Others(incoming, order, dropped))
    ensures forall name :: name in Others(incoming, order, dropped) ==> name in incoming && name !in order && name !in dropped
  {
    if incoming != [] {
      OthersAreDistinct(incoming[1..], order, dropped);
      assert incoming[0] !in incoming[1..];
    }
  }

  lemma TogetherDistinct(a: seq<string>, b: seq<string>)
    requires Distinct(a) && Distinct(b) && forall x :: x in a ==> x !in b
    ensures Distinct(a + b)
  {
    forall i, j | 0 <= i < j < |a + b| ensures (a + b)[i] != (a + b)[j] {
      if i < |a| <= j {
        assert (a + b)[i] in a && (a + b)[j] in b;
      }
    }
  }

  /** The library whose headers are these: where a client gives one of them, it is dropped. */
  ghost predicate OwnHeaders(library: seq<string>, incoming: seq<string>, order: seq<string>, dropped: seq<string>)
  {
    && |library| == LIBRARY_HEADERS && Distinct(library) && Distinct(order)
    && forall name :: name in library ==> name !in order && (name in dropped || name !in incoming)
  }

  /**
   What goes out: for distinct names, the library's own among them dropped, removing the library's five
   from the request leaves the known names in Codex's order and then the others as they came, exactly
   when five names or more are forwarded, or at most one.
   */
  lemma WrittenInWireOrder(library: seq<string>, incoming: seq<string>, order: seq<string>, dropped: seq<string>)
    requires Distinct(incoming) && OwnHeaders(library, incoming, order, dropped)
    ensures var wire := Known(order, incoming) + Others(incoming, order, dropped);
      RemoveAll(library + Rotated(wire), library) == wire <==> |wire| >= LIBRARY_HEADERS || |wire| <= 1
  {
    hide Known, Others, RemoveAll, Rotated, Distinct;
    var known, others := Known(order, incoming), Others(incoming, order, dropped);
    KnownAreDistinct(order, incoming);
    OthersAreDistinct(incoming, order, dropped);
    TogetherDistinct(known, others);
    TogetherDistinct(library, known + others);
    OrderRestoredExactly(library, known + others);
  }

  /**
   `ordered_websocket_headers`, names only: the wire order, rotated, so that with five names or more
   what the library writes is the wire order.
   */
  method OrderedWebSocketHeaders(incoming: seq<string>, order: seq<string>, dropped: seq<string>) returns (names: seq<string>)
    requires Distinct(incoming)
    ensures names == Rotated(Known(order, incoming) + Others(incoming, order, dropped))
    ensures |names| >= LIBRARY_HEADERS ==> forall library :: OwnHeaders(library, incoming, order, dropped) ==>
      RemoveAll(library + names, library) == Known(order, incoming) + Others(incoming, order, dropped)
  {
    hide Known, Others;
    names := [];
    Empty(order, incoming, dropped);
    for i := 0 to |order|
      invariant names == Known(order[..i], incoming)
    {
      KnownGrows(order, incoming, i);
      if order[i] in incoming {
        names := names + [order[i]];
      }
    }
    assert order[..|order|] == order;
    KnownAreListed(order, incoming);
    for i := 0 to |incoming|
      invariant names == Known(order, incoming) + Others(incoming[..i], order, dropped)
      invariant forall name :: name in names ==> name in order || name in incoming[..i]
    {
      OthersGrows(incoming, order, dropped, i);
      assert incoming[i] !in incoming[..i];
      if !(incoming[i] in order || incoming[i] in dropped || incoming[i] in names) {
        names := names + [incoming[i]];
      }
      assert incoming[..i + 1] == incoming[..i] + [incoming[i]];
    }
    assert incoming[..|incoming|] == incoming;
    if |names| >= LIBRARY_HEADERS {
      var leading := Reversed(names[..LIBRARY_HEADERS]);
      names := names[LIBRARY_HEADERS..];
      names := names + leading;
    }
    forall library | OwnHeaders(library, incoming, order, dropped)
      ensures |names| >= LIBRARY_HEADERS ==>
        RemoveAll(library + names, library) == Known(order, incoming) + Others(incoming, order, dropped)
    {
      WrittenInWireOrder(library, incoming, order, dropped);
    }
  }

  lemma Empty(order: seq<string>, incoming: seq<string>, dropped: seq<string>)
    ensures order[..0] == [] && incoming[..0] == [] && Known([], incoming) == [] && Others([], order, dropped) == []
  {
  }

  lemma {:induction false} KnownAreListed(order: seq<string>, incoming: seq<string>)
    ensures forall name :: name in Known(order, incoming) ==> name in order
  {
    if order != [] {
      KnownAreListed(order[1..], incoming);
    }
  }
}
