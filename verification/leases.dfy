/** What becomes of one connection of the pool: handed out and returned, or marked bad and
  * replaced.
  */
module Leases {
  import opened Totals
  import opened Pool

  /** The slot has no usable connection in the pool: it is not idle nor about to be, and whoever
    * has it leased knows it as bad. */
  ghost predicate IsOut(p: PoolState, slot: Slot) {
    && (forall j :: 0 <= j < |p.idle| ==> p.idle[j].slot != slot)
    && (forall j :: 0 <= j < |p.ready| ==> p.ready[j].slot != slot)
    && (forall j :: 0 <= j < |p.leases| && p.leases[j].slot == slot ==> p.leases[j].bad)
  }

  /** The step logs the slot in again. */
  predicate LogsIn(p: PoolState, step: Step, slot: Slot) {
    step.LoginSucceeds? && step.index < |p.reconnecting| && p.reconnecting[step.index] == slot
  }

  /** A leased slot is nowhere else. */
  lemma LeasedIsAlone(p: PoolState, l: nat)
    requires Inv(p) && l < |p.leases|
    ensures forall j :: 0 <= j < |p.idle| ==> p.idle[j].slot != p.leases[l].slot
    ensures forall j :: 0 <= j < |p.ready| ==> p.ready[j].slot != p.leases[l].slot
    ensures forall j :: 0 <= j < |p.leases| && j != l ==> p.leases[j].slot != p.leases[l].slot
  {
    var slot := p.leases[l].slot;
    LeasedSlotsWithout(p.leases, l, slot);
    assert PlacesOf(p, slot) <= 1;
    forall j | 0 <= j < |p.idle| ensures p.idle[j].slot != slot {
      assert Slots(p.idle)[j] in Slots(p.idle);
    }
    forall j | 0 <= j < |p.ready| ensures p.ready[j].slot != slot {
      assert Slots(p.ready)[j] in Slots(p.ready);
    }
    var rest := Without(p.leases, l);
    forall j | 0 <= j < |p.leases| && j != l ensures p.leases[j].slot != slot {
      var j' := if j < l then j else j - 1;
      assert rest[j'] == p.leases[j] && LeasedSlots(rest)[j'] in LeasedSlots(rest);
    }
  }

  lemma {:induction false} MarkedIsOut(p: PoolState, l: nat)
    requires Inv(p) && l < |p.leases|
    ensures IsOut(Next(p, MarkBad(l)), p.leases[l].slot)
  {
    LeasedIsAlone(p, l);
  }

  /** In every interleaving, a connection marked bad is never handed out again: until the slot has
    * logged in anew, it is in no idle entry, and a lease of it is the bad one. */
  lemma {:induction false} BadStaysOut(states: seq<PoolState>, steps: seq<Step>, i: nat, k: nat, slot: Slot)
    requires IsRun(states, steps) && i < k <= |steps|
    requires steps[i].MarkBad? && steps[i].lease < |states[i].leases| && states[i].leases[steps[i].lease].slot == slot
    requires forall j :: i < j < k ==> !LogsIn(states[j], steps[j], slot)
    ensures IsOut(states[k], slot)
  {
    assert Follows(states, steps, k - 1);
    PermitImpliesIdle(states, steps, k - 1, slot);
    if k == i + 1 {
      InvHolds(states, steps, i);
      MarkedIsOut(states[i], steps[i].lease);
    } else {
      BadStaysOut(states, steps, i, k - 1, slot);
    }
  }

  /** The step marks the slot's lease bad. */
  predicate Marks(p: PoolState, step: Step, slot: Slot) {
    step.MarkBad? && step.lease < |p.leases| && p.leases[step.lease].slot == slot
  }

  ghost predicate MarkedBefore(states: seq<PoolState>, steps: seq<Step>, k: nat, slot: Slot)
    requires k <= |steps| < |states|
  {
    exists j :: 0 <= j < k && Marks(states[j], steps[j], slot)
  }

  /** In every interleaving a lease is bad only if somebody marked it so, */
  lemma {:induction false} BadWasMarked(states: seq<PoolState>, steps: seq<Step>, k: nat, x: Lease)
    requires IsRun(states, steps) && k <= |steps| && x in states[k].leases && x.bad
    ensures MarkedBefore(states, steps, k, x.slot)
  {
    if k > 0 {
      assert Follows(states, steps, k - 1);
      PermitImpliesIdle(states, steps, k - 1, x.slot);
      if x in states[k - 1].leases {
        BadWasMarked(states, steps, k - 1, x);
      }
    }
  }

  /** and only such a lease is ever discarded. */
  lemma {:induction false} OnlyMarkedIsDiscarded(states: seq<PoolState>, steps: seq<Step>, k: nat)
    requires IsRun(states, steps) && k < |steps| && steps[k].Discard?
    ensures steps[k].lease < |states[k].leases| && MarkedBefore(states, steps, k, states[k].leases[steps[k].lease].slot)
  {
    assert Follows(states, steps, k);
    BadWasMarked(states, steps, k, states[k].leases[steps[k].lease]);
  }

  // ---------------------------------------------------------------------------------------
  // The flags behind `any_authenticated`

  ghost predicate HasAuthenticated(p: PoolState, slot: Slot) {
    || (exists c: Conn :: c.authenticated && (Idle(slot, c) in p.idle || Idle(slot, c) in p.ready))
    || (exists c: Conn, bad: bool :: c.authenticated && Lease(slot, c, bad) in p.leases)
  }

  ghost predicate DeadIsCleared(p: PoolState, slot: Slot) {
    slot in p.dead && slot < |p.authenticated| ==> !p.authenticated[slot]
  }

  lemma ReconnectingIsNotDead(p: PoolState, i: nat)
    requires Inv(p) && i < |p.reconnecting|
    ensures p.reconnecting[i] !in p.dead
  {
    var slot := p.reconnecting[i];
    assert Times(p.reconnecting, slot) >= 1 && PlacesOf(p, slot) <= 1;
    assert Times(p.dead, slot) == 0;
  }

  lemma {:induction false} DeadStaysCleared(p: PoolState, step: Step, slot: Slot)
    requires Inv(p) && Enabled(p, step) && !Panics(p, step) && DeadIsCleared(p, slot)
    ensures DeadIsCleared(Next(p, step), slot)
  {
    if step.LoginSucceeds? {
      ReconnectingIsNotDead(p, step.index);
    }
  }

  /** In every interleaving the flag of a slot whose re-login failed for good is off, so
    * `any_authenticated` never counts it. */
  lemma {:induction false} DeadSlotsAreNotCounted(states: seq<PoolState>, steps: seq<Step>, k: nat, slot: Slot)
    requires IsRun(states, steps) && k <= |steps|
    ensures DeadIsCleared(states[k], slot)
  {
    if k > 0 {
      DeadSlotsAreNotCounted(states, steps, k - 1, slot);
      assert Follows(states, steps, k - 1);
      PermitImpliesIdle(states, steps, k - 1, slot);
      InvHolds(states, steps, k - 1);
      DeadStaysCleared(states[k - 1], steps[k - 1], slot);
    }
  }

  /** So a flag that is on belongs to a live authenticated connection, or to one being replaced. */
  lemma {:induction false} FlagMeansConnection(states: seq<PoolState>, steps: seq<Step>, k: nat, slot: Slot)
    requires IsRun(states, steps) && k <= |steps|
    requires slot < |states[k].authenticated| && states[k].authenticated[slot]
    ensures HasAuthenticated(states[k], slot) || slot in states[k].reconnecting
  {
    var p := states[k];
    InvHolds(states, steps, k);
    DeadSlotsAreNotCounted(states, steps, k, slot);
    assert PlacesOf(p, slot) == 1;
    if slot !in p.reconnecting {
      SomewhereLive(p, slot);
    }
  }

  lemma {:induction false} SomewhereLive(p: PoolState, slot: Slot)
    requires AllFlagsMatch(p) && slot < |p.authenticated| && p.authenticated[slot]
    requires PlacesOf(p, slot) >= 1 && slot !in p.reconnecting && slot !in p.dead
    ensures HasAuthenticated(p, slot)
  {
    if slot in Slots(p.idle) {
      var j :| 0 <= j < |p.idle| && Slots(p.idle)[j] == slot;
      assert p.idle[j] == Idle(slot, p.idle[j].conn) && p.idle[j] in p.idle;
    } else if slot in Slots(p.ready) {
      var j :| 0 <= j < |p.ready| && Slots(p.ready)[j] == slot;
      assert p.ready[j] == Idle(slot, p.ready[j].conn) && p.ready[j] in p.ready;
    } else {
      assert slot in LeasedSlots(p.leases);
      var j :| 0 <= j < |p.leases| && LeasedSlots(p.leases)[j] == slot;
      assert p.leases[j] == Lease(slot, p.leases[j].conn, p.leases[j].bad) && p.leases[j] in p.leases;
    }
  }

  // ---------------------------------------------------------------------------------------
  // Whole leases

  function After(p: PoolState, steps: seq<Step>): PoolState
    decreases |steps|
  {
    if steps == [] || !Enabled(p, steps[0]) || Panics(p, steps[0]) then p else After(Next(p, steps[0]), steps[1..])
  }

  /** Every step can be taken when its turn comes. */
  predicate Possible(p: PoolState, steps: seq<Step>)
    decreases |steps|
  {
    steps == [] || (Enabled(p, steps[0]) && !Panics(p, steps[0]) && Possible(Next(p, steps[0]), steps[1..]))
  }

  lemma Unroll(p: PoolState, step: Step, rest: seq<Step>)
    requires Enabled(p, step) && !Panics(p, step)
    ensures After(p, [step] + rest) == After(Next(p, step), rest)
    ensures Possible(p, [step] + rest) <==> Possible(Next(p, step), rest)
  {
    assert ([step] + rest)[1..] == rest;
  }

  /** Acquiring a connection and returning it leaves the pool exactly as it was. */
  lemma {:induction false} LeaseRoundTrip(p: PoolState)
    requires Inv(p) && p.permits > 0
    ensures var steps := [TakePermit, PopIdle, PushIdle(|p.leases|), DropPermit];
            Possible(p, steps) && After(p, steps) == p
  {
    var l := |p.leases|;
    var p1 := Next(p, TakePermit);
    var p2 := Next(p1, PopIdle);
    var p3 := Next(p2, PushIdle(l));
    assert Next(p3, DropPermit) == p;
    Unroll(p3, DropPermit, []);
    Unroll(p2, PushIdle(l), [DropPermit]);
    Unroll(p1, PopIdle, [PushIdle(l), DropPermit]);
    Unroll(p, TakePermit, [PopIdle, PushIdle(l), DropPermit]);
    assert [TakePermit] + [PopIdle, PushIdle(l), DropPermit] == [TakePermit, PopIdle, PushIdle(l), DropPermit];
    assert [PopIdle] + [PushIdle(l), DropPermit] == [PopIdle, PushIdle(l), DropPermit];
    assert [PushIdle(l)] + [DropPermit] == [PushIdle(l), DropPermit];
    assert [DropPermit] + [] == [DropPermit];
  }

  /** The bad half of a lease: discarded and replaced, with the permit back last. */
  lemma {:induction false} ReplaceLease(p: PoolState, l: nat, conn: Conn)
    requires Inv(p) && l < |p.leases| && p.leases[l].bad
    ensures var steps := [Discard(l), LoginSucceeds(|p.reconnecting|, conn), PushReady(|p.ready|), DropPermit];
            var slot := p.leases[l].slot;
            && Possible(p, steps)
            && slot < |p.authenticated|
            && After(p, steps) == p.(leases := Without(p.leases, l), idle := p.idle + [Idle(slot, conn)],
                                     permits := p.permits + 1,
                                     authenticated := p.authenticated[slot := conn.authenticated])
  {
    var r, d, slot := |p.reconnecting|, |p.ready|, p.leases[l].slot;
    var p1 := Next(p, Discard(l));
    var p2 := Next(p1, LoginSucceeds(r, conn));
    var p3 := Next(p2, PushReady(d));
    Unroll(p3, DropPermit, []);
    Unroll(p2, PushReady(d), [DropPermit]);
    Unroll(p1, LoginSucceeds(r, conn), [PushReady(d), DropPermit]);
    Unroll(p, Discard(l), [LoginSucceeds(r, conn), PushReady(d), DropPermit]);
    assert [Discard(l)] + [LoginSucceeds(r, conn), PushReady(d), DropPermit]
        == [Discard(l), LoginSucceeds(r, conn), PushReady(d), DropPermit];
    assert [LoginSucceeds(r, conn)] + [PushReady(d), DropPermit] == [LoginSucceeds(r, conn), PushReady(d), DropPermit];
    assert [PushReady(d)] + [DropPermit] == [PushReady(d), DropPermit];
    assert [DropPermit] + [] == [DropPermit];
  }

  /** A lease that is marked bad can only be discarded, and discarding and replacing it puts the
    * slot back with the new connection and its flag; nothing else changes. */
  lemma {:induction false} BadLeaseIsReplaced(p: PoolState, l: nat, conn: Conn)
    requires Inv(p) && l < |p.leases|
    ensures var bad := Next(p, MarkBad(l));
            var steps := [Discard(l), LoginSucceeds(|p.reconnecting|, conn), PushReady(|p.ready|), DropPermit];
            var slot := p.leases[l].slot;
            && !Enabled(bad, PushIdle(l)) && Possible(bad, steps) && slot < |p.authenticated|
            && After(bad, steps) == p.(leases := Without(p.leases, l), idle := p.idle + [Idle(slot, conn)],
                                       permits := p.permits + 1,
                                       authenticated := p.authenticated[slot := conn.authenticated])
  {
    var bad := Next(p, MarkBad(l));
    InvStep(p, MarkBad(l));
    ReplaceLease(bad, l, conn);
    assert Without(bad.leases, l) == Without(p.leases, l);
  }
}
