/** The pool of logged-in Steam connections.
  *
  * Semaphore permits and the idle list are changed by separate atomic steps, so an acquire, a
  * return and a background re-login can each be caught half-way by any other. The state below
  * records every such half-way point.
  */
module Pool {
  import opened Totals

  type Slot = nat

  /** A logged-in connection; `authenticated` is what its own session says. */
  datatype Conn = Conn(authenticated: bool)

  datatype Idle = Idle(slot: Slot, conn: Conn)

  datatype Lease = Lease(slot: Slot, conn: Conn, bad: bool)

  datatype PoolState = PoolState(
    n: nat,
    permits: nat,                 // available in the semaphore
    idle: seq<Idle>,
    authenticated: seq<bool>,     // the flag kept per slot
    taking: nat,                  // tasks that won a permit and have not popped yet
    leases: seq<Lease>,           // connections checked out
    reconnecting: seq<Slot>,      // bad connections discarded, re-login under way
    ready: seq<Idle>,             // logged in again, flag stored, not yet pushed
    returning: nat,               // tasks that pushed a connection and still hold the permit
    dead: seq<Slot>)              // re-login failed for good, permit forgotten

  datatype Step =
    | TakePermit
    | PopIdle
    | MarkBad(lease: nat)
    | PushIdle(lease: nat)
    | Discard(lease: nat)
    | LoginSucceeds(index: nat, conn: Conn)
    | LoginFails(index: nat)
    | PushReady(index: nat)
    | DropPermit

  function Without<T>(s: seq<T>, i: nat): seq<T>
    requires i < |s|
  {
    s[..i] + s[i + 1..]
  }

  predicate InRange(p: PoolState, slot: Slot) {
    slot < |p.authenticated|
  }

  /** When the code can take the step. `PopIdle` needs only its permit: that the idle list is
    * non-empty is what `acquire` asserts, and what has to be proved. */
  predicate Enabled(p: PoolState, step: Step) {
    match step
    case TakePermit => p.permits > 0
    case PopIdle => p.taking > 0
    case MarkBad(i) => i < |p.leases|
    case PushIdle(i) => i < |p.leases| && !p.leases[i].bad
    case Discard(i) => i < |p.leases| && p.leases[i].bad
    case LoginSucceeds(i, _) => i < |p.reconnecting| && InRange(p, p.reconnecting[i])
    case LoginFails(i) => i < |p.reconnecting| && InRange(p, p.reconnecting[i])
    case PushReady(i) => i < |p.ready|
    case DropPermit => p.returning > 0
  }

  /** The step `acquire` calls impossible: a permit in hand and nothing to pop. */
  predicate Panics(p: PoolState, step: Step) {
    step.PopIdle? && p.idle == []
  }

  function Next(p: PoolState, step: Step): PoolState
    requires Enabled(p, step) && !Panics(p, step)
  {
    match step
    case TakePermit => p.(permits := p.permits - 1, taking := p.taking + 1)
    case PopIdle =>
      var last := p.idle[|p.idle| - 1];
      p.(taking := p.taking - 1, idle := p.idle[..|p.idle| - 1],
         leases := p.leases + [Lease(last.slot, last.conn, false)])
    case MarkBad(i) => p.(leases := p.leases[i := p.leases[i].(bad := true)])
    case PushIdle(i) =>
      p.(leases := Without(p.leases, i), returning := p.returning + 1,
         idle := p.idle + [Idle(p.leases[i].slot, p.leases[i].conn)])
    case Discard(i) =>
      p.(leases := Without(p.leases, i), reconnecting := p.reconnecting + [p.leases[i].slot])
    case LoginSucceeds(i, conn) =>
      var slot := p.reconnecting[i];
      p.(reconnecting := Without(p.reconnecting, i), ready := p.ready + [Idle(slot, conn)],
         authenticated := p.authenticated[slot := conn.authenticated])
    case LoginFails(i) =>
      var slot := p.reconnecting[i];
      p.(reconnecting := Without(p.reconnecting, i), dead := p.dead + [slot],
         authenticated := p.authenticated[slot := false])
    case PushReady(i) =>
      p.(ready := Without(p.ready, i), idle := p.idle + [p.ready[i]], returning := p.returning + 1)
    case DropPermit => p.(returning := p.returning - 1, permits := p.permits + 1)
  }

  function Slots(s: seq<Idle>): seq<Slot> {
    seq(|s|, i requires 0 <= i < |s| => s[i].slot)
  }

  function LeasedSlots(s: seq<Lease>): seq<Slot> {
    seq(|s|, i requires 0 <= i < |s| => s[i].slot)
  }

  /** How many times a list mentions the slot. */
  ghost function Times(s: seq<Slot>, slot: Slot): nat {
    multiset(s)[slot]
  }

  /** In how many places the slot is. */
  ghost function PlacesOf(p: PoolState, slot: Slot): nat {
    Times(Slots(p.idle), slot) + Times(LeasedSlots(p.leases), slot) + Times(p.reconnecting, slot)
    + Times(Slots(p.ready), slot) + Times(p.dead, slot)
  }

  /** The flag kept for a slot is what its connection's session says. */
  ghost predicate FlagsMatch(authenticated: seq<bool>, s: seq<Idle>) {
    forall i :: 0 <= i < |s| ==> s[i].slot < |authenticated| && authenticated[s[i].slot] == s[i].conn.authenticated
  }

  ghost predicate LeaseFlagsMatch(authenticated: seq<bool>, s: seq<Lease>) {
    forall i :: 0 <= i < |s| ==> s[i].slot < |authenticated| && authenticated[s[i].slot] == s[i].conn.authenticated
  }

  ghost predicate Inv(p: PoolState) {
    && |p.authenticated| == p.n
    && (forall slot: Slot :: PlacesOf(p, slot) == OneIf(slot < p.n))
    && |p.idle| + |p.leases| + |p.reconnecting| + |p.ready| + |p.dead| == p.n
    && |p.idle| == p.permits + p.taking + p.returning
    && AllFlagsMatch(p)
  }

  lemma RemoveOne(s: seq<Slot>, i: nat, slot: Slot)
    requires i < |s|
    ensures Times(s, slot) == Times(Without(s, i), slot) + OneIf(s[i] == slot)
  {
    assert s == s[..i] + [s[i]] + s[i + 1..];
  }

  lemma SlotsWithout(s: seq<Idle>, i: nat, slot: Slot)
    requires i < |s|
    ensures Times(Slots(s), slot) == Times(Slots(Without(s, i)), slot) + OneIf(s[i].slot == slot)
  {
    RemoveOne(Slots(s), i, slot);
    assert Slots(Without(s, i)) == Without(Slots(s), i);
  }

  lemma LeasedSlotsWithout(s: seq<Lease>, i: nat, slot: Slot)
    requires i < |s|
    ensures Times(LeasedSlots(s), slot) == Times(LeasedSlots(Without(s, i)), slot) + OneIf(s[i].slot == slot)
  {
    RemoveOne(LeasedSlots(s), i, slot);
    assert LeasedSlots(Without(s, i)) == Without(LeasedSlots(s), i);
  }

  lemma SlotsAppended(s: seq<Idle>, x: Idle, slot: Slot)
    ensures Times(Slots(s + [x]), slot) == Times(Slots(s), slot) + OneIf(x.slot == slot)
  {
    assert Slots(s + [x]) == Slots(s) + [x.slot];
  }

  lemma LeasedSlotsAppended(s: seq<Lease>, x: Lease, slot: Slot)
    ensures Times(LeasedSlots(s + [x]), slot) == Times(LeasedSlots(s), slot) + OneIf(x.slot == slot)
  {
    assert LeasedSlots(s + [x]) == LeasedSlots(s) + [x.slot];
  }

  /** No step loses a slot or duplicates one. */
  lemma {:induction false} SlotsAreConserved(p: PoolState, step: Step, slot: Slot)
    requires Enabled(p, step) && !Panics(p, step)
    ensures PlacesOf(Next(p, step), slot) == PlacesOf(p, slot)
  {
    match step
    case TakePermit =>
    case DropPermit =>
    case PopIdle =>
      var i := |p.idle| - 1;
      SlotsWithout(p.idle, i, slot);
      assert Without(p.idle, i) == p.idle[..i];
      LeasedSlotsAppended(p.leases, Lease(p.idle[i].slot, p.idle[i].conn, false), slot);
    case MarkBad(i) =>
      assert LeasedSlots(Next(p, step).leases) == LeasedSlots(p.leases);
    case PushIdle(i) =>
      LeasedSlotsWithout(p.leases, i, slot);
      SlotsAppended(p.idle, Idle(p.leases[i].slot, p.leases[i].conn), slot);
    case Discard(i) =>
      LeasedSlotsWithout(p.leases, i, slot);
    case LoginSucceeds(i, conn) =>
      RemoveOne(p.reconnecting, i, slot);
      SlotsAppended(p.ready, Idle(p.reconnecting[i], conn), slot);
    case LoginFails(i) =>
      RemoveOne(p.reconnecting, i, slot);
    case PushReady(i) =>
      SlotsWithout(p.ready, i, slot);
      SlotsAppended(p.idle, p.ready[i], slot);
  }

  /** A slot that is reconnecting is nowhere else, so re-storing its flag disturbs nobody. */
  lemma ReconnectingIsAlone(p: PoolState, i: nat)
    requires Inv(p) && i < |p.reconnecting|
    ensures p.reconnecting[i] < p.n
    ensures forall j :: 0 <= j < |p.idle| ==> p.idle[j].slot != p.reconnecting[i]
    ensures forall j :: 0 <= j < |p.ready| ==> p.ready[j].slot != p.reconnecting[i]
    ensures forall j :: 0 <= j < |p.leases| ==> p.leases[j].slot != p.reconnecting[i]
  {
    var slot := p.reconnecting[i];
    assert Times(p.reconnecting, slot) >= 1 && PlacesOf(p, slot) <= 1;
    forall j | 0 <= j < |p.idle| ensures p.idle[j].slot != slot {
      assert Slots(p.idle)[j] in Slots(p.idle);
    }
    forall j | 0 <= j < |p.ready| ensures p.ready[j].slot != slot {
      assert Slots(p.ready)[j] in Slots(p.ready);
    }
    forall j | 0 <= j < |p.leases| ensures p.leases[j].slot != slot {
      assert LeasedSlots(p.leases)[j] in LeasedSlots(p.leases);
    }
  }

  ghost predicate AllFlagsMatch(p: PoolState) {
    && FlagsMatch(p.authenticated, p.idle) && FlagsMatch(p.authenticated, p.ready)
    && LeaseFlagsMatch(p.authenticated, p.leases)
  }

  lemma FlagsStep(p: PoolState, step: Step)
    requires Inv(p) && Enabled(p, step) && !Panics(p, step)
    ensures AllFlagsMatch(Next(p, step))
  {
    match step
    case LoginSucceeds(i, conn) =>
      ReconnectingIsAlone(p, i);
    case LoginFails(i) =>
      ReconnectingIsAlone(p, i);
    case _ =>
  }

  lemma {:induction false} InvStep(p: PoolState, step: Step)
    requires Inv(p) && Enabled(p, step)
    ensures !Panics(p, step) && Inv(Next(p, step))
  {
    FlagsStep(p, step);
    forall slot: Slot ensures PlacesOf(Next(p, step), slot) == OneIf(slot < p.n) {
      SlotsAreConserved(p, step, slot);
    }
  }

  // ---------------------------------------------------------------------------------------
  // Whole runs

  /** What `start` builds from `n` fresh logins: all idle, all permits available. */
  predicate Started(p: PoolState) {
    && p.permits == |p.idle| == |p.authenticated| == p.n
    && (forall i :: 0 <= i < p.n ==> p.idle[i].slot == i && p.authenticated[i] == p.idle[i].conn.authenticated)
    && p.taking == 0 && p.returning == 0
    && p.leases == [] && p.reconnecting == [] && p.ready == [] && p.dead == []
  }

  lemma {:induction false} RangeHoldsEachOnce(s: seq<Slot>, slot: Slot)
    requires forall i :: 0 <= i < |s| ==> s[i] == i
    ensures Times(s, slot) == OneIf(slot < |s|)
  {
    if s != [] {
      var k := |s| - 1;
      RangeHoldsEachOnce(s[..k], slot);
      assert s == s[..k] + [k];
    }
  }

  lemma StartedInv(p: PoolState)
    requires Started(p)
    ensures Inv(p)
  {
    forall slot: Slot ensures PlacesOf(p, slot) == OneIf(slot < p.n) {
      RangeHoldsEachOnce(Slots(p.idle), slot);
    }
  }

  /** A run: every step enabled, and `states` following `Next` for as long as nothing panics. */
  ghost predicate IsRun(states: seq<PoolState>, steps: seq<Step>) {
    && |states| == |steps| + 1 && Started(states[0])
    && forall i :: 0 <= i < |steps| ==> Follows(states, steps, i)
  }

  ghost predicate Follows(states: seq<PoolState>, steps: seq<Step>, i: nat)
    requires i < |steps| < |states|
  {
    Enabled(states[i], steps[i]) && (!Panics(states[i], steps[i]) ==> states[i + 1] == Next(states[i], steps[i]))
  }

  lemma {:induction false} InvHolds(states: seq<PoolState>, steps: seq<Step>, k: nat)
    requires IsRun(states, steps) && k <= |steps|
    ensures Inv(states[k])
  {
    if k == 0 {
      StartedInv(states[0]);
    } else {
      InvHolds(states, steps, k - 1);
      assert Follows(states, steps, k - 1);
      InvStep(states[k - 1], steps[k - 1]);
    }
  }

  /** In every interleaving each slot is in exactly one place, and a task that holds a permit
    * always finds a connection to pop. */
  lemma {:induction false} PermitImpliesIdle(states: seq<PoolState>, steps: seq<Step>, k: nat, slot: Slot)
    requires IsRun(states, steps) && k <= |steps|
    ensures PlacesOf(states[k], slot) == OneIf(slot < states[k].n)
    ensures states[k].taking > 0 ==> states[k].idle != []
    ensures k < |steps| ==> !Panics(states[k], steps[k])
  {
    InvHolds(states, steps, k);
    if k < |steps| {
      assert Follows(states, steps, k);
      InvStep(states[k], steps[k]);
    }
  }

  /** Every permit is accounted for: available, or behind a live connection or a re-login; the
    * only permits ever lost are those of dead slots. */
  lemma {:induction false} PermitsAreConserved(states: seq<PoolState>, steps: seq<Step>, k: nat)
    requires IsRun(states, steps) && k <= |steps|
    ensures var p := states[k];
            p.permits + p.taking + p.returning + |p.leases| + |p.reconnecting| + |p.ready| + |p.dead| == p.n
  {
    InvHolds(states, steps, k);
  }

  /** The flag consulted by `any_authenticated` tells the truth about every idle or checked-out
    * connection. */
  lemma {:induction false} FlagsTellTheTruth(states: seq<PoolState>, steps: seq<Step>, k: nat, slot: Slot)
    requires IsRun(states, steps) && k <= |steps|
    ensures forall c :: Idle(slot, c) in states[k].idle ==> slot < |states[k].authenticated| && states[k].authenticated[slot] == c.authenticated
    ensures forall c, bad :: Lease(slot, c, bad) in states[k].leases ==> slot < |states[k].authenticated| && states[k].authenticated[slot] == c.authenticated
  {
    InvHolds(states, steps, k);
  }

  // ---------------------------------------------------------------------------------------
  // The pool object

  /** `CmPool` itself. The ghost fields are what its callers and its background tasks hold. */
  class CmPool {
    var permits: nat
    var idle: seq<Idle>
    var authenticated: seq<bool>
    ghost var taking: nat
    ghost var leases: seq<Lease>
    ghost var reconnecting: seq<Slot>
    ghost var ready: seq<Idle>
    ghost var returning: nat
    ghost var dead: seq<Slot>

    ghost function State(): PoolState
      reads this
    {
      PoolState(|authenticated|, permits, idle, authenticated, taking, leases, reconnecting, ready, returning, dead)
    }

    /** `start`, once every slot has logged in. */
    constructor (conns: seq<Conn>)
      ensures Started(State()) && |idle| == |conns|
      ensures forall i :: 0 <= i < |conns| ==> idle[i].conn == conns[i]
    {
      permits := |conns|;
      idle := seq(|conns|, i requires 0 <= i < |conns| => Idle(i, conns[i]));
      authenticated := seq(|conns|, i requires 0 <= i < |conns| => conns[i].authenticated);
      taking, leases, reconnecting, ready, returning, dead := 0, [], [], [], 0, [];
    }

    /** Whether any slot's flag is set. */
    method AnyAuthenticated() returns (any: bool)
      ensures any <==> exists i :: 0 <= i < |authenticated| && authenticated[i]
    {
      any := false;
      for i := 0 to |authenticated|
        invariant any <==> exists j :: 0 <= j < i && authenticated[j]
      {
        any := any || authenticated[i];
      }
    }

    /** The first half of `acquire`. */
    method TakePermit()
      requires Inv(State()) && permits > 0
      modifies this
      ensures Inv(State()) && State() == Next(old(State()), Step.TakePermit)
    {
      InvStep(State(), Step.TakePermit);
      permits := permits - 1;
      taking := taking + 1;
    }

    /** The second half: with a permit in hand the pop cannot fail. */
    method PopIdle() returns (lease: Lease)
      requires Inv(State()) && taking > 0
      modifies this
      ensures !Panics(old(State()), Step.PopIdle)
      ensures Inv(State()) && State() == Next(old(State()), Step.PopIdle)
      ensures leases == old(leases) + [lease] && !lease.bad
      ensures old(idle) == idle + [Idle(lease.slot, lease.conn)]
    {
      InvStep(State(), Step.PopIdle);
      var last := idle[|idle| - 1];
      idle := idle[..|idle| - 1];
      lease := Lease(last.slot, last.conn, false);
      taking, leases := taking - 1, leases + [lease];
    }

    /** `mark_bad` on a lease; what it does to the lease shows when that is dropped. */
    ghost method MarkBad(i: nat)
      requires Inv(State()) && i < |leases|
      modifies this
      ensures Inv(State()) && State() == Next(old(State()), Step.MarkBad(i))
      ensures leases[i] == old(leases)[i].(bad := true)
    {
      InvStep(State(), Step.MarkBad(i));
      leases := leases[i := leases[i].(bad := true)];
    }

    /** Dropping a bad lease: neither connection nor permit comes back yet. */
    ghost method Discard(i: nat)
      requires Inv(State()) && i < |leases| && leases[i].bad
      modifies this
      ensures Inv(State()) && State() == Next(old(State()), Step.Discard(i))
      ensures idle == old(idle) && permits == old(permits) && reconnecting == old(reconnecting) + [old(leases)[i].slot]
    {
      InvStep(State(), Step.Discard(i));
      leases, reconnecting := Without(leases, i), reconnecting + [leases[i].slot];
    }

    /** Dropping a healthy lease: the connection goes back first, */
    method PushIdle(ghost i: nat, lease: Lease)
      requires Inv(State()) && i < |leases| && leases[i] == lease && !lease.bad
      modifies this
      ensures Inv(State()) && State() == Next(old(State()), Step.PushIdle(i))
    {
      InvStep(State(), Step.PushIdle(i));
      idle := idle + [Idle(lease.slot, lease.conn)];
      leases, returning := Without(leases, i), returning + 1;
    }

    /** and the permit after it. */
    method DropPermit()
      requires Inv(State()) && returning > 0
      modifies this
      ensures Inv(State()) && State() == Next(old(State()), Step.DropPermit)
    {
      InvStep(State(), Step.DropPermit);
      permits := permits + 1;
      returning := returning - 1;
    }

    /** `relogin_slot` with a new connection: the flag is stored before the connection is pushed, */
    method LoginSucceeds(ghost i: nat, slot: Slot, conn: Conn)
      requires Inv(State()) && i < |reconnecting| && reconnecting[i] == slot && slot < |authenticated|
      modifies this
      ensures Inv(State()) && State() == Next(old(State()), Step.LoginSucceeds(i, conn))
    {
      InvStep(State(), Step.LoginSucceeds(i, conn));
      authenticated := authenticated[slot := conn.authenticated];
      reconnecting, ready := Without(reconnecting, i), ready + [Idle(slot, conn)];
    }

    method PushReady(ghost i: nat, item: Idle)
      requires Inv(State()) && i < |ready| && ready[i] == item
      modifies this
      ensures Inv(State()) && State() == Next(old(State()), Step.PushReady(i))
    {
      InvStep(State(), Step.PushReady(i));
      idle := idle + [item];
      ready, returning := Without(ready, i), returning + 1;
    }

    /** and without one: the permit is forgotten, never handed back. */
    method LoginFails(ghost i: nat, slot: Slot)
      requires Inv(State()) && i < |reconnecting| && reconnecting[i] == slot && slot < |authenticated|
      modifies this
      ensures Inv(State()) && State() == Next(old(State()), Step.LoginFails(i)) && permits == old(permits)
    {
      InvStep(State(), Step.LoginFails(i));
      authenticated := authenticated[slot := false];
      reconnecting, dead := Without(reconnecting, i), dead + [slot];
    }
  }
}
