/**
 Which slots may serve: one per upstream identity, chosen by a rule through the pool's stable sort.

 Everything the rule reads is fixed at one instant, for one model: a slot carries the answers of the
 quota, plan and clock predicates as fields.
 */
module Eligibility {
  import opened Basics
  import opened Json
  import opened GoSort

  datatype Slot = Slot(
    id: string,
    identity: string,        // the upstream identity key; empty for an API-key slot
    enabled: bool,
    inPool: bool,
    allowed: bool,           // the plan allows the model
    pending: bool,           // a sign-in to the slot is unfinished
    credential: bool,        // auth.json is readable, or there is a base URL
    errored: bool,           // a quota error that blocks routing
    quota: Option<Quota>,    // the last snapshot's
    manual: Option<int>,     // the remaining quota noted for the slot itself
    metered: bool,           // upstream meters exactly this model for the slot
    coolingDown: bool,
    expiringCredit: bool,
    proTier: int,
    priority: int)

  /** `spent`: the windows block routing explicitly; `reserved`: the quota protection does. */
  datatype Quota = Quota(spent: bool, reserved: bool, remaining: int)

  datatype Pool = Pool(slots: seq<Slot>, anyModel: bool, preservePro: bool)

  ghost predicate UniqueIds(slots: seq<Slot>)
  {
    && (forall i, j :: 0 <= i < j < |slots| ==> slots[i].id != slots[j].id)
    && forall slot :: slot in slots ==> slot.id != ""
  }

  // ---- the rule ----

  function QuotaClass(slot: Slot): (int, int)
  {
    if slot.errored then (0, 0)
    else
      match slot.quota
      case Some(quota) => if quota.spent || quota.reserved then (0, 0) else (2, quota.remaining)
      case None =>
        match slot.manual
        case Some(n) => if n > 0 then (2, n) else (0, 0)
        case None => (1, 0)
  }

  function PreferredBefore(preservePro: bool, left: Slot, right: Slot): bool
  {
    if left.expiringCredit != right.expiringCredit then left.expiringCredit
    else if preservePro && left.proTier != right.proTier then left.proTier < right.proTier
    else if left.priority == right.priority then left.id != right.id && Leq(left.id, right.id)
    else left.priority > right.priority
  }

  function RepresentativeBefore(preservePro: bool, left: Slot, right: Slot): bool
  {
    if left.coolingDown != right.coolingDown then !left.coolingDown
    else
      var (leftClass, leftRemaining) := QuotaClass(left);
      var (rightClass, rightRemaining) := QuotaClass(right);
      if leftClass != rightClass then leftClass > rightClass
      else if leftClass == 2 && leftRemaining != rightRemaining then leftRemaining > rightRemaining
      else PreferredBefore(preservePro, left, right)
  }

  function Rule(preservePro: bool): Less<Slot>
  {
    (n: nat, left: Slot, right: Slot) => RepresentativeBefore(preservePro, left, right)
  }

  predicate UsableAuth(slot: Slot)
  {
    !slot.pending && slot.credential
  }

  predicate Candidate(pool: Pool, identity: string, slot: Slot)
  {
    && slot.enabled && slot.inPool && (pool.anyModel || slot.allowed) && UsableAuth(slot) && !slot.errored
    && slot.identity == identity
  }

  function Candidates(pool: Pool, slots: seq<Slot>, identity: string): (r: seq<Slot>)
    ensures forall slot :: slot in r <==> slot in slots && Candidate(pool, identity, slot)
  {
    if slots == [] then []
    else (if Candidate(pool, identity, slots[0]) then [slots[0]] else []) + Candidates(pool, slots[1..], identity)
  }

  /** The id of the slot that stands for the identity, or the empty string. */
  function Representative(pool: Pool, identity: string): string
  {
    var candidates := Candidates(pool, pool.slots, identity);
    if identity == "" || candidates == [] then ""
    else
      var sorted := StableSort(candidates, Rule(pool.preservePro));
      SortKeepsLength(candidates, Rule(pool.preservePro));
      sorted[0].id
  }

  lemma {:induction false} SortKeepsLength(s: seq<Slot>, less: Less<Slot>)
    ensures |StableSort(s, less)| == |s|
  {
    if s != [] {
      SortKeepsLength(s[..|s| - 1], less);
      InsertKeepsElements(StableSort(s[..|s| - 1], less), s[|s| - 1], less);
      assert |multiset(StableSort(s, less))| == |StableSort(s, less)|;
      assert |multiset(StableSort(s[..|s| - 1], less)) + multiset{s[|s| - 1]}| == |s|;
    }
  }

  // ---- eligibility ----

  function SnapshotAvailable(slot: Slot): Option<bool>
  {
    if slot.errored then Some(false)
    else
      match slot.quota
      case Some(quota) => Some(!(quota.spent || quota.reserved))
      case None => None
  }

  predicate HintFrom(slot: Slot, other: Slot)
  {
    && other.id != slot.id && other.enabled && other.inPool && UsableAuth(other) && other.identity == slot.identity
    && !other.errored && (SnapshotAvailable(other) == Some(true) || (other.manual.Some? && other.manual.value > 0))
  }

  predicate SameIdentityHint(pool: Pool, slot: Slot)
  {
    var primary := Representative(pool, slot.identity);
    slot.identity != "" && (primary == "" || primary == slot.id) && exists other :: other in pool.slots && HintFrom(slot, other)
  }

  predicate QuotaAvailable(pool: Pool, slot: Slot)
  {
    if slot.errored then false
    else
      match slot.quota
      case Some(quota) => if quota.spent then SameIdentityHint(pool, slot) else !quota.reserved
      case None =>
        if slot.manual.Some? && slot.manual.value <= 0 then SameIdentityHint(pool, slot) else true
  }

  predicate MeterAllows(pool: Pool, slot: Slot)
  {
    slot.metered || forall other :: other in pool.slots && other.id != slot.id && other.enabled && other.inPool ==> !other.metered
  }

  predicate Usable(pool: Pool, slot: Slot)
  {
    var primary := Representative(pool, slot.identity);
    && slot.enabled && slot.inPool && slot.allowed && !slot.pending
    && (primary == "" || primary == slot.id)
    && QuotaAvailable(pool, slot) && MeterAllows(pool, slot) && slot.credential && !slot.coolingDown
  }

  // ---- the rule is a strict order ----

  lemma IdsOrdered(a: string, b: string, c: string)
    ensures Leq(a, b) || Leq(b, a)
    ensures Leq(a, b) && Leq(b, a) ==> a == b
    ensures Leq(a, b) && Leq(b, c) ==> Leq(a, c)
  {
    LeqTotal(a, b);
    if Leq(a, b) && Leq(b, c) {
      LeqTransitive(a, b, c);
    }
  }

  /** No slot goes before itself; of two with different ids exactly one goes before the other; and it is transitive. */
  lemma RuleIsStrictTotalOrder(preservePro: bool, x: Slot, y: Slot, z: Slot)
    ensures !RepresentativeBefore(preservePro, x, x)
    ensures RepresentativeBefore(preservePro, x, y) ==> !RepresentativeBefore(preservePro, y, x)
    ensures x.id != y.id ==> RepresentativeBefore(preservePro, x, y) || RepresentativeBefore(preservePro, y, x)
    ensures RepresentativeBefore(preservePro, x, y) && RepresentativeBefore(preservePro, y, z) ==> RepresentativeBefore(preservePro, x, z)
    ensures RepresentativeBefore(preservePro, x, z) ==> RepresentativeBefore(preservePro, x, y) || RepresentativeBefore(preservePro, y, z)
  {
    hide QuotaClass, Leq;
    IdsOrdered(x.id, y.id, z.id);
    IdsOrdered(x.id, z.id, y.id);
    IdsOrdered(y.id, x.id, z.id);
    IdsOrdered(y.id, z.id, x.id);
    IdsOrdered(z.id, x.id, y.id);
    IdsOrdered(z.id, y.id, x.id);
  }

  lemma RuleIsConsistent(preservePro: bool)
    ensures Consistent(Rule(preservePro))
  {
    hide RepresentativeBefore;
    forall x, y, z
      ensures RepresentativeBefore(preservePro, x, y) ==> !RepresentativeBefore(preservePro, y, x)
      ensures RepresentativeBefore(preservePro, x, z) ==> RepresentativeBefore(preservePro, x, y) || RepresentativeBefore(preservePro, y, z)
    {
      RuleIsStrictTotalOrder(preservePro, x, y, z);
    }
  }

  // ---- the representative ----

  /** A candidate that goes before every other candidate of its identity. */
  ghost predicate IsFirst(pool: Pool, identity: string, slot: Slot)
  {
    && slot in pool.slots && Candidate(pool, identity, slot)
    && forall other :: other in pool.slots && Candidate(pool, identity, other) && other.id != slot.id ==>
         RepresentativeBefore(pool.preservePro, slot, other)
  }

  /** The slot the sort puts first is the one candidate that goes before every other. */
  lemma RepresentativeIsFirst(pool: Pool, identity: string) returns (first: Slot)
    requires identity != "" && Candidates(pool, pool.slots, identity) != []
    ensures IsFirst(pool, identity, first) && first.id == Representative(pool, identity)
    ensures forall other :: other in pool.slots && Candidate(pool, identity, other) ==>
      !RepresentativeBefore(pool.preservePro, other, first)
  {
    hide RepresentativeBefore, Candidate;
    var less := Rule(pool.preservePro);
    var candidates := Candidates(pool, pool.slots, identity);
    var sorted := StableSort(candidates, less);
    RuleIsConsistent(pool.preservePro);
    StableSortIsStable(candidates, less);
    SortKeepsLength(candidates, less);
    first := sorted[0];
    assert forall slot :: slot in multiset(sorted) <==> slot in multiset(candidates);
    assert first in multiset(sorted) && first in candidates;
    forall other | other in pool.slots && Candidate(pool, identity, other)
      ensures !RepresentativeBefore(pool.preservePro, other, first)
      ensures other.id != first.id ==> RepresentativeBefore(pool.preservePro, first, other)
    {
      assert other in candidates && other in multiset(candidates);
      assert other in sorted;
      var j :| 0 <= j < |sorted| && sorted[j] == other;
      assert j > 0 ==> !less(0, sorted[j], sorted[0]);
      RuleIsStrictTotalOrder(pool.preservePro, first, other, other);
    }
  }

  /** Quota is known to be left: by the snapshot, or by the note where there is no snapshot. */
  predicate KnownOpen(slot: Slot)
  {
    if slot.quota.Some? then !slot.quota.value.spent && !slot.quota.value.reserved
    else slot.manual.Some? && slot.manual.value > 0
  }

  predicate NothingKnown(slot: Slot)
  {
    slot.quota.None? && slot.manual.None?
  }

  function Left(slot: Slot): int
    requires KnownOpen(slot)
  {
    if slot.quota.Some? then slot.quota.value.remaining else slot.manual.value
  }

  /** Neither is better off: in cooling down, in what is known of the quota, and in how much is left. */
  predicate AsWellOff(x: Slot, y: Slot)
  {
    && x.coolingDown == y.coolingDown && KnownOpen(x) == KnownOpen(y) && NothingKnown(x) == NothingKnown(y)
    && (KnownOpen(x) ==> Left(x) == Left(y))
  }

  /**
   The representative against any other candidate of its identity: it is not cooling down unless the
   other is; then quota known to be left goes before nothing known, and that before quota known to be
   gone; then more left goes first; and among slots as well off an expiring credit, then, where Pro is
   preserved, the lower tier, then the higher priority, then the smaller id.
   */
  lemma RepresentativeIsBest(pool: Pool, identity: string, other: Slot) returns (best: Slot)
    requires identity != "" && other in pool.slots && other.identity == identity && other.enabled && other.inPool
    requires (pool.anyModel || other.allowed) && !other.pending && other.credential && !other.errored
    ensures best in pool.slots && best.id == Representative(pool, identity) && best.identity == identity
    ensures best.enabled && best.inPool && (pool.anyModel || best.allowed) && !best.pending && best.credential && !best.errored
    ensures best.coolingDown ==> other.coolingDown
    ensures best.coolingDown == other.coolingDown ==>
      && (KnownOpen(other) ==> KnownOpen(best))
      && (NothingKnown(other) ==> KnownOpen(best) || NothingKnown(best))
      && (KnownOpen(best) && KnownOpen(other) ==> Left(best) >= Left(other))
    ensures AsWellOff(best, other) ==>
      && (other.expiringCredit ==> best.expiringCredit)
      && (best.expiringCredit == other.expiringCredit ==>
            && (pool.preservePro ==> best.proTier <= other.proTier)
            && (!pool.preservePro || best.proTier == other.proTier ==>
                  && best.priority >= other.priority
                  && (best.priority == other.priority ==> Leq(best.id, other.id))))
  {
    hide Leq, Rule, Representative;
    assert other in Candidates(pool, pool.slots, identity);
    best := RepresentativeIsFirst(pool, identity);
    LeqTotal(best.id, other.id);
  }

  lemma NoCandidates(pool: Pool, identity: string)
    ensures Candidates(pool, pool.slots, identity) == []
      <==> forall slot :: slot in pool.slots ==> !Candidate(pool, identity, slot)
  {
    hide Candidate;
    var candidates := Candidates(pool, pool.slots, identity);
    if candidates != [] {
      assert candidates[0] in candidates;
    }
  }

  /** The order the slots are configured in does not matter. */
  lemma RepresentativeIgnoresOrder(a: Pool, b: Pool, identity: string)
    requires a.anyModel == b.anyModel && a.preservePro == b.preservePro
    requires forall slot :: slot in a.slots <==> slot in b.slots
    ensures Representative(a, identity) == Representative(b, identity)
  {
    hide RepresentativeBefore, Rule;
    NoCandidates(a, identity);
    NoCandidates(b, identity);
    assert forall slot :: Candidate(a, identity, slot) == Candidate(b, identity, slot);
    if identity != "" && Candidates(a, a.slots, identity) != [] {
      var x := RepresentativeIsFirst(a, identity);
      var y := RepresentativeIsFirst(b, identity);
      RuleIsStrictTotalOrder(a.preservePro, x, y, y);
    }
  }

  /** A slot that may serve is its identity's representative: no other candidate goes before it. */
  lemma UsableIsFirst(pool: Pool, slot: Slot)
    requires UniqueIds(pool.slots) && slot in pool.slots && slot.identity != "" && Usable(pool, slot)
    ensures IsFirst(pool, slot.identity, slot) && Representative(pool, slot.identity) == slot.id
  {
    hide RepresentativeBefore, Rule, MeterAllows;
    assert slot in Candidates(pool, pool.slots, slot.identity);
    var first := RepresentativeIsFirst(pool, slot.identity);
    assert first.id != "";
    SameSlot(pool.slots, slot, first);
  }

  lemma SameSlot(slots: seq<Slot>, x: Slot, y: Slot)
    requires UniqueIds(slots) && x in slots && y in slots && x.id == y.id
    ensures x == y
  {
    var i :| 0 <= i < |slots| && slots[i] == x;
    var j :| 0 <= j < |slots| && slots[j] == y;
    assert i < j || j < i || i == j;
  }

  /** At any instant at most one slot of an upstream identity may serve a model. */
  lemma OneUsablePerIdentity(pool: Pool, x: Slot, y: Slot)
    requires UniqueIds(pool.slots) && x in pool.slots && y in pool.slots
    requires x.identity == y.identity != "" && Usable(pool, x) && Usable(pool, y)
    ensures x == y
  {
    hide Usable, Representative;
    UsableIsFirst(pool, x);
    UsableIsFirst(pool, y);
    SameSlot(pool.slots, x, y);
  }

  /** No error blocks the slot, and nothing known of its quota does. */
  predicate QuotaOpen(slot: Slot)
  {
    && !slot.errored
    && (slot.quota.Some? ==> !slot.quota.value.spent && !slot.quota.value.reserved)
    && (slot.quota.None? && slot.manual.Some? ==> slot.manual.value > 0)
  }

  /** No error blocks the slot, but its quota is known to be spent. */
  predicate QuotaSpent(slot: Slot)
  {
    && !slot.errored
    && if slot.quota.Some? then slot.quota.value.spent else slot.manual.Some? && slot.manual.value <= 0
  }

  /** Another slot of the identity that is in use and has quota, by its snapshot or by what is noted for it. */
  predicate GivesEvidence(slot: Slot, other: Slot)
  {
    && other.id != slot.id && other.identity == slot.identity && other.enabled && other.inPool && !other.pending
    && other.credential && !other.errored
    && ((other.quota.Some? && !other.quota.value.spent && !other.quota.value.reserved)
        || (other.manual.Some? && other.manual.value > 0))
  }

  /** The model is metered to the slot, or to none of the others in use. */
  ghost predicate Metered(pool: Pool, slot: Slot)
  {
    slot.metered || !exists other :: other in pool.slots && other.id != slot.id && other.enabled && other.inPool && other.metered
  }

  lemma EvidenceIs(slot: Slot, other: Slot)
    ensures HintFrom(slot, other) <==> GivesEvidence(slot, other)
  {
  }

  lemma MeteredIs(pool: Pool, slot: Slot)
    ensures MeterAllows(pool, slot) <==> Metered(pool, slot)
  {
  }

  /**
   A slot of an identity may serve exactly when it goes before every other candidate of the identity,
   the model is allowed and metered to it, it is not cooling down, and its own quota is open, or spent
   with another slot of the identity giving evidence of quota.
   */
  lemma UsableExactly(pool: Pool, slot: Slot)
    requires UniqueIds(pool.slots) && slot in pool.slots && slot.identity != ""
    ensures Usable(pool, slot) <==>
      && IsFirst(pool, slot.identity, slot) && slot.allowed && Metered(pool, slot) && !slot.coolingDown
      && (QuotaOpen(slot) || (QuotaSpent(slot) && exists other :: other in pool.slots && GivesEvidence(slot, other)))
  {
    hide RepresentativeBefore, Rule, MeterAllows, Metered, HintFrom, GivesEvidence, Representative, IsFirst;
    MeteredIs(pool, slot);
    forall other ensures HintFrom(slot, other) <==> GivesEvidence(slot, other) {
      EvidenceIs(slot, other);
    }
    if Usable(pool, slot) {
      UsableIsFirst(pool, slot);
    }
    if IsFirst(pool, slot.identity, slot) {
      FirstIsRepresentative(pool, slot);
    }
  }

  /** Of an identity's candidates only the representative goes before all others. */
  lemma FirstIsRepresentative(pool: Pool, slot: Slot)
    requires UniqueIds(pool.slots) && slot in pool.slots && slot.identity != "" && IsFirst(pool, slot.identity, slot)
    ensures Representative(pool, slot.identity) == slot.id && Candidate(pool, slot.identity, slot)
  {
    hide RepresentativeBefore, Rule;
    assert slot in Candidates(pool, pool.slots, slot.identity);
    var first := RepresentativeIsFirst(pool, slot.identity);
    if first.id != slot.id {
      RuleIsStrictTotalOrder(pool.preservePro, first, slot, slot);
      assert false;
    }
  }

  /** A slot without an identity stands for itself alone. */
  lemma UnnamedUsableExactly(pool: Pool, slot: Slot)
    requires slot.identity == ""
    ensures Usable(pool, slot) <==>
      && slot.enabled && slot.inPool && slot.allowed && !slot.pending && slot.credential && Metered(pool, slot)
      && !slot.coolingDown && QuotaOpen(slot)
  {
    hide MeterAllows, Metered;
    MeteredIs(pool, slot);
  }

  // ---- choosing it ----

  /**
   `primary_upstream_account_id`. The clock inside the rule may be read anew at every comparison:
   `rule` answers call by call. Whatever it answers, the slot chosen is a candidate of the identity;
   with the clock fixed it is the representative.
   */
  method ChooseRepresentative(pool: Pool, identity: string, rule: Less<Slot>) returns (id: string)
    ensures (identity == "" || forall slot :: slot in pool.slots ==> !Candidate(pool, identity, slot)) ==> id == ""
    ensures identity != "" && id != "" ==> exists slot :: slot in pool.slots && Candidate(pool, identity, slot) && slot.id == id
    ensures rule == Rule(pool.preservePro) ==> id == Representative(pool, identity)
  {
    hide RepresentativeBefore, Candidate;
    if identity == "" {
      return "";
    }
    var candidates := Candidates(pool, pool.slots, identity);
    NoCandidates(pool, identity);
    if candidates == [] {
      return "";
    }
    var data := new Slot[|candidates|](i requires 0 <= i < |candidates| => candidates[i]);
    assert data[..] == candidates;
    RuleIsConsistent(pool.preservePro);
    SliceStable(data, rule);
    assert data[0] in multiset(data[..]);
    assert data[0] in candidates;
    return data[0].id;
  }

  // ---- the quota windows ----

  /** A reported window: the remaining percentage, and when it resets. */
  datatype Window = Window(remaining: real, resetAt: Option<int>)

  datatype Verdict = Blocked(window: nat) | Unavailable | Available

  /** A window at or below its threshold counts until it resets; without a reset time, while telemetry is fresh. */
  predicate Holds(window: Option<Window>, threshold: int, now: int, recent: bool)
  {
    && window.Some? && window.value.remaining <= threshold as real
    && (if window.value.resetAt.Some? then now < window.value.resetAt.value else recent)
  }

  /** Something is reported, and everything reported is above its threshold. */
  predicate AllAbove(windows: seq<Option<Window>>, thresholds: seq<int>)
    requires |windows| == |thresholds|
  {
    && (exists i :: 0 <= i < |windows| && windows[i].Some?)
    && forall i :: 0 <= i < |windows| && windows[i].Some? ==> windows[i].value.remaining > thresholds[i] as real
  }

  /** The first window that holds, from position i on. */
  function FirstHeld(windows: seq<Option<Window>>, thresholds: seq<int>, now: int, recent: bool, i: nat): (r: Option<nat>)
    requires i <= |windows| == |thresholds|
    ensures r.Some? ==> i <= r.value < |windows| && Holds(windows[r.value], thresholds[r.value], now, recent)
    ensures forall k :: i <= k < |windows| && (r.Some? ==> k < r.value) ==> !Holds(windows[k], thresholds[k], now, recent)
    decreases |windows| - i
  {
    if i == |windows| then None
    else if Holds(windows[i], thresholds[i], now, recent) then Some(i)
    else FirstHeld(windows, thresholds, now, recent, i + 1)
  }

  /** What the windows say at an instant. */
  function StatusOf(windows: seq<Option<Window>>, thresholds: seq<int>, now: int, recent: bool): Verdict
    requires |windows| == |thresholds|
  {
    match FirstHeld(windows, thresholds, now, recent, 0)
    case Some(i) => Blocked(i)
    case None => if recent && AllAbove(windows, thresholds) then Available else Unavailable
  }

  /** `windows_status`: the first of the windows that holds blocks; nothing else does. */
  method WindowsStatus(windows: seq<Option<Window>>, thresholds: seq<int>, now: int, recent: bool) returns (v: Verdict)
    requires |windows| == |thresholds|
    ensures v.Blocked? <==> exists i :: 0 <= i < |windows| && Holds(windows[i], thresholds[i], now, recent)
    ensures v.Blocked? ==> v.window < |windows| && Holds(windows[v.window], thresholds[v.window], now, recent)
    ensures v.Blocked? ==> forall i :: 0 <= i < v.window ==> !Holds(windows[i], thresholds[i], now, recent)
    ensures v.Available? <==> recent && AllAbove(windows, thresholds)
    ensures v == StatusOf(windows, thresholds, now, recent)
  {
    var shown, unproven := false, false;
    for i := 0 to |windows|
      invariant forall k :: 0 <= k < i ==> !Holds(windows[k], thresholds[k], now, recent)
      invariant shown <==> exists k :: 0 <= k < i && windows[k].Some?
      invariant unproven <==> exists k :: 0 <= k < i && windows[k].Some? && windows[k].value.remaining <= thresholds[k] as real
    {
      if windows[i].None? {
        continue;
      }
      var window := windows[i].value;
      shown := true;
      if window.remaining > thresholds[i] as real {
        continue;
      }
      if window.resetAt.Some? && now >= window.resetAt.value {
        unproven := true;
        continue;
      }
      if window.resetAt.None? && !recent {
        unproven := true;
        continue;
      }
      return Blocked(i);
    }
    if !shown || unproven || !recent {
      return Unavailable;
    }
    return Available;
  }

  /**
   Window i blocks exactly where it is the first one at or below its threshold that is still to reset,
   or has no known reset and fresh telemetry. Quota is available exactly where telemetry is fresh,
   something is reported, and all of it is above its threshold.
   */
  lemma StatusExactly(windows: seq<Option<Window>>, thresholds: seq<int>, now: int, recent: bool, i: nat)
    requires |windows| == |thresholds|
    ensures StatusOf(windows, thresholds, now, recent) == Blocked(i) <==>
      i < |windows| && forall k :: 0 <= k <= i ==>
        (k == i <==>
           && windows[k].Some? && !(windows[k].value.remaining > thresholds[k] as real)
           && (windows[k].value.resetAt.Some? || recent)
           && (windows[k].value.resetAt.None? || now < windows[k].value.resetAt.value))
    ensures StatusOf(windows, thresholds, now, recent) == Available <==>
      && recent && (exists k :: 0 <= k < |windows| && windows[k] != None)
      && !exists k :: 0 <= k < |windows| && windows[k].Some? && windows[k].value.remaining <= thresholds[k] as real
  {
    var held := FirstHeld(windows, thresholds, now, recent, 0);
    if i < |windows| && held.None? {
      assert !Holds(windows[i], thresholds[i], now, recent);
    }
    if held.Some? && held.value < i < |windows| {
      assert Holds(windows[held.value], thresholds[held.value], now, recent);
    }
    if held.Some? && i < held.value {
      assert !Holds(windows[i], thresholds[i], now, recent);
    }
  }

  /**
   Two verdicts on the same windows, which may have gone stale between them. Where a window blocks and
   its reset is known, routing stays blocked until then, and by that window unless stale telemetry
   counts as fresh again. From the reset on that window blocks no more, but the verdict is not
   "available" either as long as nothing newer was reported.
   */
  lemma BlockLastsUntilReset(windows: seq<Option<Window>>, thresholds: seq<int>, now: int, later: int,
                             recent: bool, stillRecent: bool)
    requires |windows| == |thresholds| && now <= later
    requires StatusOf(windows, thresholds, now, recent).Blocked?
    requires windows[StatusOf(windows, thresholds, now, recent).window].value.resetAt.Some?
    ensures var i, after := StatusOf(windows, thresholds, now, recent).window, StatusOf(windows, thresholds, later, stillRecent);
      && (later < windows[i].value.resetAt.value ==>
            after.Blocked? && after.window <= i && ((stillRecent ==> recent) ==> after == Blocked(i)))
      && (later >= windows[i].value.resetAt.value ==> after != Blocked(i) && !after.Available?)
  {
    var i, after := StatusOf(windows, thresholds, now, recent).window, StatusOf(windows, thresholds, later, stillRecent);
    if later < windows[i].value.resetAt.value {
      assert Holds(windows[i], thresholds[i], later, stillRecent);
      if (stillRecent ==> recent) && after.window < i {
        assert Holds(windows[after.window], thresholds[after.window], now, recent);
        assert false;
      }
    }
  }
}
