/** The cross-process sync lock and the double-checked sync it guards.
  *
  * Any number of workers, in any number of processes, share the lock and marker tables and the
  * content tree. `download_one_depot` takes the lock for a key, re-checks the marker, and then
  * either trusts it or rewrites the tree and stores a new one. Everything is one step of one
  * worker at a time, in any interleaving, with a clock, crashes and failing calls.
  */
module SyncLock {

  type Key = string
  type Worker = nat
  type Manifest = nat

  const STALE_LOCK_SECS: int := 30 * 60

  datatype LockRow = LockRow(holder: Worker, acquiredAt: int)

  // ---------------------------------------------------------------------------------------
  // The statements each call runs against the tables

  /** INSERT: succeeds only if the key has no row. */
  function InsertLock(locks: map<Key, LockRow>, key: Key, row: LockRow): map<Key, LockRow> {
    if key in locks then locks else locks[key := row]
  }

  predicate IsStale(locks: map<Key, LockRow>, key: Key, now: int) {
    key in locks && now - locks[key].acquiredAt > STALE_LOCK_SECS
  }

  /** The steal transaction: replace the row only if it is clearly stale. */
  function StealLock(locks: map<Key, LockRow>, key: Key, row: LockRow): map<Key, LockRow> {
    if IsStale(locks, key, row.acquiredAt) then locks[key := row] else locks
  }

  /** DELETE by key alone: whose row it is is not checked. */
  function ReleaseLock(locks: map<Key, LockRow>, key: Key): map<Key, LockRow> {
    locks - {key}
  }

  predicate IsSynced(synced: map<Key, Manifest>, key: Key, manifest: Manifest, dirExists: bool) {
    dirExists && key in synced && synced[key] == manifest
  }

  /** The sync database of one content directory. */
  class SyncState {
    var locks: map<Key, LockRow>
    var synced: map<Key, Manifest>

    constructor ()
      ensures locks == map[] && synced == map[]
    {
      locks, synced := map[], map[];
    }

    /** One attempt with no other process between its two statements. */
    method TryAcquire(key: Key, holder: Worker, now: int) returns (acquired: bool)
      modifies this`locks
      ensures acquired == (key !in old(locks) || now - old(locks)[key].acquiredAt > 1800)
      ensures acquired ==> locks == old(locks)[key := LockRow(holder, now)]
      ensures !acquired ==> locks == old(locks)
    {
      var row := LockRow(holder, now);
      if key !in locks {
        locks := InsertLock(locks, key, row);
        return true;
      }
      acquired := IsStale(locks, key, now);
      locks := StealLock(locks, key, row);
    }

    method Release(key: Key)
      modifies this`locks
      ensures locks == old(locks) - {key}
    {
      locks := ReleaseLock(locks, key);
    }

    method CheckSynced(key: Key, manifest: Manifest, dirExists: bool) returns (r: bool)
      ensures r == IsSynced(synced, key, manifest, dirExists)
    {
      if !dirExists {
        return false;
      }
      r := key in synced && synced[key] == manifest;
    }

    method MarkSynced(key: Key, manifest: Manifest)
      modifies this`synced
      ensures synced == old(synced)[key := manifest]
    {
      synced := synced[key := manifest];
    }

    method Invalidate(key: Key)
      modifies this`synced
      ensures synced == old(synced) - {key}
    {
      synced := synced - {key};
    }
  }

  // ---------------------------------------------------------------------------------------
  // The machine

  /** Where a worker is in `download_one_depot`. */
  datatype Stage =
    | Waiting                       // between polls for the lock
    | Stamped(now: int)             // try_acquire has read the clock
    | Refused(now: int)             // the insert found a row; the steal check comes next
    | Holding(acquiredAt: int)      // has the guard, marker not yet re-checked
    | Syncing(acquiredAt: int)      // syncing, no file of the tree touched yet
    | Writing(acquiredAt: int)      // rewriting the tree
    | Written(acquiredAt: int)      // tree complete, marker not yet stored
    | Dropped(acquiredAt: int)      // returned; the release task has not run yet
    | Finished
    | Crashed                       // gone, along with any release it owed

  datatype Task = Task(key: Key, plan: Manifest, stage: Stage)

  datatype Disk = Absent | Torn | At(manifest: Manifest)

  /** `aborted` records the keys whose marker may be older than the last write that started. */
  datatype State = State(
    clock: int,
    locks: map<Key, LockRow>,
    synced: map<Key, Manifest>,
    disk: map<Key, Disk>,
    tasks: map<Worker, Task>,
    aborted: set<Key>)

  datatype Step =
    | Tick(seconds: nat)
    | Begin(w: Worker, key: Key, plan: Manifest)
    | Stamp(w: Worker)
    | Insert(w: Worker)
    | Steal(w: Worker)
    | Trust(w: Worker)
    | StartSync(w: Worker, unread: bool)   // `unread`: the marker could not be read
    | StartWrite(w: Worker)
    | FailWrite(w: Worker)
    | FinishWrite(w: Worker)
    | FailFinalize(w: Worker)
    | Mark(w: Worker, stored: bool)
    | Release(w: Worker, deleted: bool)
    | Crash(w: Worker)
    | Invalidate(key: Key)
    | Wipe(key: Key)

  function DiskAt(s: State, key: Key): Disk {
    if key in s.disk then s.disk[key] else Absent
  }

  /** A guard exists, or its release is still to run. */
  predicate HasGuard(t: Task) {
    t.stage.Holding? || t.stage.Syncing? || t.stage.Writing? || t.stage.Written? || t.stage.Dropped?
  }

  predicate IsWriter(t: Task) {
    t.stage.Writing? || t.stage.Written?
  }

  predicate Guards(s: State, w: Worker, key: Key) {
    w in s.tasks && s.tasks[w].key == key && HasGuard(s.tasks[w])
  }

  predicate TrustsMarker(s: State, t: Task) {
    IsSynced(s.synced, t.key, t.plan, DiskAt(s, t.key) != Absent)
  }

  predicate Enabled(s: State, step: Step) {
    match step
    case Tick(_) => true
    case Begin(w, _, _) => w !in s.tasks
    case Stamp(w) => w in s.tasks && s.tasks[w].stage.Waiting?
    case Insert(w) => w in s.tasks && s.tasks[w].stage.Stamped?
    case Steal(w) => w in s.tasks && s.tasks[w].stage.Refused?
    case Trust(w) => w in s.tasks && s.tasks[w].stage.Holding? && TrustsMarker(s, s.tasks[w])
    case StartSync(w, unread) => w in s.tasks && s.tasks[w].stage.Holding? && (unread || !TrustsMarker(s, s.tasks[w]))
    case StartWrite(w) => w in s.tasks && s.tasks[w].stage.Syncing?
    case FailWrite(w) => w in s.tasks && (s.tasks[w].stage.Syncing? || s.tasks[w].stage.Writing?)
    case FinishWrite(w) => w in s.tasks && (s.tasks[w].stage.Syncing? || s.tasks[w].stage.Writing?)
    case FailFinalize(w) => w in s.tasks && s.tasks[w].stage.Written?
    case Mark(w, _) => w in s.tasks && s.tasks[w].stage.Written?
    case Release(w, _) => w in s.tasks && s.tasks[w].stage.Dropped?
    case Crash(w) => w in s.tasks
    case Invalidate(_) => true
    case Wipe(key) => forall w :: w in s.tasks && s.tasks[w].key == key ==> !IsWriter(s.tasks[w])
  }

  function Move(s: State, w: Worker, stage: Stage): State
    requires w in s.tasks
  {
    s.(tasks := s.tasks[w := s.tasks[w].(stage := stage)])
  }

  function Next(s: State, step: Step): State
    requires Enabled(s, step)
  {
    match step
    case Tick(seconds) => s.(clock := s.clock + seconds)
    case Begin(w, key, plan) => s.(tasks := s.tasks[w := Task(key, plan, Waiting)])
    case Stamp(w) => Move(s, w, Stamped(s.clock))
    case Insert(w) =>
      var t := s.tasks[w];
      Move(s, w, if t.key in s.locks then Refused(t.stage.now) else Holding(t.stage.now))
        .(locks := InsertLock(s.locks, t.key, LockRow(w, t.stage.now)))
    case Steal(w) =>
      var t := s.tasks[w];
      Move(s, w, if IsStale(s.locks, t.key, t.stage.now) then Holding(t.stage.now) else Waiting)
        .(locks := StealLock(s.locks, t.key, LockRow(w, t.stage.now)))
    case Trust(w) => Move(s, w, Dropped(s.tasks[w].stage.acquiredAt))
    case StartSync(w, _) => Move(s, w, Syncing(s.tasks[w].stage.acquiredAt))
    case StartWrite(w) =>
      Move(s, w, Writing(s.tasks[w].stage.acquiredAt)).(disk := s.disk[s.tasks[w].key := Torn])
    case FailWrite(w) =>
      Move(s, w, Dropped(s.tasks[w].stage.acquiredAt))
        .(aborted := if IsWriter(s.tasks[w]) then s.aborted + {s.tasks[w].key} else s.aborted)
    case FinishWrite(w) =>
      Move(s, w, Written(s.tasks[w].stage.acquiredAt)).(disk := s.disk[s.tasks[w].key := At(s.tasks[w].plan)])
    case FailFinalize(w) =>
      Move(s, w, Dropped(s.tasks[w].stage.acquiredAt)).(aborted := s.aborted + {s.tasks[w].key})
    case Mark(w, stored) =>
      var t := s.tasks[w];
      var s' := Move(s, w, Dropped(t.stage.acquiredAt));
      if stored then s'.(synced := s.synced[t.key := t.plan], aborted := s.aborted - {t.key})
      else s'.(aborted := s.aborted + {t.key})
    case Release(w, deleted) =>
      Move(s, w, Finished).(locks := if deleted then ReleaseLock(s.locks, s.tasks[w].key) else s.locks)
    case Crash(w) =>
      Move(s, w, Crashed).(aborted := if IsWriter(s.tasks[w]) then s.aborted + {s.tasks[w].key} else s.aborted)
    case Invalidate(key) => s.(synced := s.synced - {key})
    case Wipe(key) => s.(disk := s.disk[key := Absent])
  }

  predicate Init(s: State) {
    s.locks == map[] && s.synced == map[] && s.tasks == map[] && s.aborted == {}
  }

  /** `states` is what happens when `steps` are taken in turn from a fresh start. */
  ghost predicate IsRun(states: seq<State>, steps: seq<Step>) {
    && |states| == |steps| + 1
    && Init(states[0])
    && forall i :: 0 <= i < |steps| ==> TakesStep(states, steps, i)
  }

  ghost predicate TakesStep(states: seq<State>, steps: seq<Step>, i: nat)
    requires i < |steps| < |states|
  {
    Enabled(states[i], steps[i]) && states[i + 1] == Next(states[i], steps[i])
  }

  // ---------------------------------------------------------------------------------------
  // Mutual exclusion

  /** No two workers have a guard for one key. */
  ghost predicate Exclusive(s: State) {
    forall v, w, key :: Guards(s, v, key) && Guards(s, w, key) ==> v == w
  }

  /** The step takes over a row whose holder still has its guard. */
  predicate StealsLive(s: State, step: Step) {
    && step.Steal? && step.w in s.tasks && s.tasks[step.w].stage.Refused?
    && var t := s.tasks[step.w];
       IsStale(s.locks, t.key, t.stage.now) && Guards(s, s.locks[t.key].holder, t.key)
  }

  /** Every guard is backed by the row for its key. */
  ghost predicate Backed(s: State, w: Worker) {
    w in s.tasks && HasGuard(s.tasks[w]) ==>
      s.tasks[w].key in s.locks && s.locks[s.tasks[w].key] == LockRow(w, s.tasks[w].stage.acquiredAt)
  }

  ghost predicate StampPast(s: State, w: Worker) {
    w in s.tasks && (s.tasks[w].stage.Stamped? || s.tasks[w].stage.Refused?) ==> s.tasks[w].stage.now <= s.clock
  }

  ghost predicate LockInv(s: State) {
    forall w :: Backed(s, w) && StampPast(s, w)
  }

  lemma {:induction false} LockInvStep(s: State, step: Step)
    requires LockInv(s) && Enabled(s, step) && !StealsLive(s, step)
    ensures LockInv(Next(s, step))
  {
    forall w ensures Backed(Next(s, step), w) && StampPast(Next(s, step), w) {
      BackedStep(s, step, w);
    }
  }

  lemma BackedStep(s: State, step: Step, w: Worker)
    requires LockInv(s) && Enabled(s, step) && !StealsLive(s, step)
    ensures Backed(Next(s, step), w) && StampPast(Next(s, step), w)
  {
    assert Backed(s, w) && StampPast(s, w);
    match step
    case Release(v, _) => assert Backed(s, v);
    case _ =>
  }

  lemma BackedIsExclusive(s: State)
    requires LockInv(s)
    ensures Exclusive(s)
  {
    forall v, w, key | Guards(s, v, key) && Guards(s, w, key) ensures v == w {
      assert Backed(s, v) && Backed(s, w);
    }
  }

  /** Up to its first steal from a live guard, a run keeps every guard backed by its own row. */
  lemma {:induction false} LockInvHolds(states: seq<State>, steps: seq<Step>, n: nat)
    requires IsRun(states, steps) && n <= |steps|
    requires forall i :: 0 <= i < n ==> !StealsLive(states[i], steps[i])
    ensures LockInv(states[n])
  {
    if n > 0 {
      LockInvHolds(states, steps, n - 1);
      assert TakesStep(states, steps, n - 1);
      LockInvStep(states[n - 1], steps[n - 1]);
    }
  }

  /** In every run, mutual exclusion holds throughout if and only if no step steals the row of
    * a guard that still exists. */
  lemma {:induction false} ExclusiveIff(states: seq<State>, steps: seq<Step>)
    requires IsRun(states, steps)
    ensures (forall i :: 0 <= i < |states| ==> Exclusive(states[i])) <==>
            (forall i :: 0 <= i < |steps| ==> !StealsLive(states[i], steps[i]))
  {
    if forall i :: 0 <= i < |steps| ==> !StealsLive(states[i], steps[i]) {
      forall i | 0 <= i < |states| ensures Exclusive(states[i]) {
        LockInvHolds(states, steps, i);
        BackedIsExclusive(states[i]);
      }
    }
    if i :| 0 <= i < |steps| && StealsLive(states[i], steps[i]) {
      assert TakesStep(states, steps, i);
      StolenFromLive(states[i], steps[i]);
      assert !Exclusive(states[i + 1]);
    }
  }

  lemma StolenFromLive(s: State, step: Step)
    requires Enabled(s, step) && StealsLive(s, step)
    ensures !Exclusive(Next(s, step))
  {
    var s', key := Next(s, step), s.tasks[step.w].key;
    assert Guards(s', step.w, key) && Guards(s', s.locks[key].holder, key);
  }

  /** Every guard, and every release still owed, is younger than the stale limit. */
  ghost predicate Timely(s: State) {
    forall w :: w in s.tasks && HasGuard(s.tasks[w]) ==> s.clock - s.tasks[w].stage.acquiredAt <= STALE_LOCK_SECS
  }

  /** If every guard's release runs within STALE_LOCK_SECS of its recorded time, at most one
    * guard exists per key, at every point of the run. */
  lemma {:induction false} TimelyRunIsExclusive(states: seq<State>, steps: seq<Step>)
    requires IsRun(states, steps)
    requires forall i :: 0 <= i < |steps| ==> Timely(states[i])
    ensures forall i :: 0 <= i < |steps| ==> !StealsLive(states[i], steps[i])
    ensures forall i :: 0 <= i < |states| ==> Exclusive(states[i])
  {
    TimelyStealsNothing(states, steps, |steps|);
    ExclusiveIff(states, steps);
  }

  lemma {:induction false} TimelyStealsNothing(states: seq<State>, steps: seq<Step>, n: nat)
    requires IsRun(states, steps) && n <= |steps|
    requires forall i :: 0 <= i < n ==> Timely(states[i])
    ensures forall i :: 0 <= i < n ==> !StealsLive(states[i], steps[i])
  {
    if n > 0 {
      TimelyStealsNothing(states, steps, n - 1);
      LockInvHolds(states, steps, n - 1);
      TimelyStealsNone(states[n - 1], steps[n - 1]);
    }
  }

  lemma TimelyStealsNone(s: State, step: Step)
    requires LockInv(s) && Timely(s)
    ensures !StealsLive(s, step)
  {
    if step.Steal? && step.w in s.tasks && s.tasks[step.w].stage.Refused? && s.tasks[step.w].key in s.locks {
      assert Backed(s, s.locks[s.tasks[step.w].key].holder) && StampPast(s, step.w);
    }
  }

  /** In such a run a release deletes the releasing worker's own row and no other. */
  lemma {:induction false} ReleaseDeletesOwnRow(states: seq<State>, steps: seq<Step>, i: nat)
    requires IsRun(states, steps) && i < |steps| && steps[i].Release?
    requires forall j :: 0 <= j < i ==> !StealsLive(states[j], steps[j])
    ensures steps[i].w in states[i].tasks
    ensures var key := states[i].tasks[steps[i].w].key;
            && key in states[i].locks && states[i].locks[key].holder == steps[i].w
            && forall k :: k != key ==> (k in states[i + 1].locks <==> k in states[i].locks)
  {
    LockInvHolds(states, steps, i);
    assert TakesStep(states, steps, i);
    assert Backed(states[i], steps[i].w);
  }

  // ---------------------------------------------------------------------------------------
  // The marker

  /** Nobody is between starting to write the key's tree and storing its marker. */
  ghost predicate Quiet(s: State, key: Key) {
    forall w :: w in s.tasks && s.tasks[w].key == key ==> !IsWriter(s.tasks[w])
  }

  /** A marker over a tree that is there means the tree is at that manifest. */
  ghost predicate MarkerHolds(s: State, key: Key) {
    key in s.synced && DiskAt(s, key) != Absent ==> DiskAt(s, key) == At(s.synced[key])
  }

  ghost predicate WrittenIsThere(s: State, w: Worker) {
    w in s.tasks && s.tasks[w].stage.Written? ==> DiskAt(s, s.tasks[w].key) == At(s.tasks[w].plan)
  }

  ghost predicate MarkerInv(s: State) {
    && (forall key :: Quiet(s, key) && key !in s.aborted ==> MarkerHolds(s, key))
    && (forall w :: WrittenIsThere(s, w))
  }

  /** A guard is alone on its key. */
  lemma OnlyWriter(s: State, v: Worker, w: Worker)
    requires LockInv(s) && v in s.tasks && w in s.tasks && HasGuard(s.tasks[v]) && HasGuard(s.tasks[w])
    requires s.tasks[v].key == s.tasks[w].key
    ensures v == w
  {
    assert Backed(s, v) && Backed(s, w);
  }

  /** With its guard in `Holding`, a worker knows that nobody is writing its key. */
  lemma HolderSeesQuiet(s: State, w: Worker)
    requires LockInv(s) && w in s.tasks && s.tasks[w].stage.Holding?
    ensures Quiet(s, s.tasks[w].key)
  {
    forall v | v in s.tasks && s.tasks[v].key == s.tasks[w].key ensures !IsWriter(s.tasks[v]) {
      if IsWriter(s.tasks[v]) {
        OnlyWriter(s, v, w);
      }
    }
  }

  lemma {:induction false} MarkerInvStep(s: State, step: Step)
    requires LockInv(s) && MarkerInv(s) && Enabled(s, step)
    ensures MarkerInv(Next(s, step))
  {
    var s' := Next(s, step);
    forall w ensures WrittenIsThere(s', w) {
      assert WrittenIsThere(s, w);
      if w in s.tasks && IsWriter(s.tasks[w]) && step.StartWrite? && s.tasks[step.w].key == s.tasks[w].key {
        OnlyWriter(s, step.w, w);
      }
      if w in s.tasks && IsWriter(s.tasks[w]) && step.FinishWrite? && s.tasks[step.w].key == s.tasks[w].key {
        OnlyWriter(s, step.w, w);
      }
    }
    forall key | Quiet(s', key) && key !in s'.aborted ensures MarkerHolds(s', key) {
      MarkerStep(s, step, key);
    }
  }

  lemma {:induction false} MarkerStep(s: State, step: Step, key: Key)
    requires LockInv(s) && MarkerInv(s) && Enabled(s, step)
    requires Quiet(Next(s, step), key) && key !in Next(s, step).aborted
    ensures MarkerHolds(Next(s, step), key)
  {
    var s' := Next(s, step);
    if step.Mark? && s.tasks[step.w].key == key {
      assert WrittenIsThere(s, step.w);
    } else if step.StartWrite? && s.tasks[step.w].key == key {
      assert IsWriter(s'.tasks[step.w]);
    } else if step.FinishWrite? && s.tasks[step.w].key == key {
      assert IsWriter(s'.tasks[step.w]);
    } else {
      assert Quiet(s, key) by {
        forall w | w in s.tasks && s.tasks[w].key == key ensures !IsWriter(s.tasks[w]) {
          assert w in s'.tasks && s'.tasks[w].key == key;
        }
      }
      assert MarkerHolds(s, key);
    }
  }

  lemma {:induction false} MarkerInvHolds(states: seq<State>, steps: seq<Step>, n: nat)
    requires IsRun(states, steps) && n <= |steps|
    requires forall i :: 0 <= i < n ==> !StealsLive(states[i], steps[i])
    ensures LockInv(states[n]) && MarkerInv(states[n])
  {
    LockInvHolds(states, steps, n);
    if n > 0 {
      MarkerInvHolds(states, steps, n - 1);
      assert TakesStep(states, steps, n - 1);
      MarkerInvStep(states[n - 1], steps[n - 1]);
    }
  }

  /** A step that gives up a write that has touched the tree, or loses its marker. */
  predicate GivesUp(s: State, step: Step) {
    || step.FailFinalize? || (step.Mark? && !step.stored)
    || ((step.FailWrite? || step.Crash?) && step.w in s.tasks && IsWriter(s.tasks[step.w]))
  }

  /** The same, of `key`. */
  predicate GivesUpOn(s: State, step: Step, key: Key) {
    GivesUp(s, step) && step.w in s.tasks && s.tasks[step.w].key == key
  }

  predicate Marks(s: State, step: Step, key: Key) {
    step.Mark? && step.stored && step.w in s.tasks && s.tasks[step.w].key == key
  }

  /** `key` was given up on in step `j` and no marker of it has been stored since. */
  ghost predicate GivenUpAt(states: seq<State>, steps: seq<Step>, n: nat, key: Key, j: nat)
    requires n <= |steps| < |states|
  {
    j < n && GivesUpOn(states[j], steps[j], key) && forall i :: j < i < n ==> !Marks(states[i], steps[i], key)
  }

  ghost predicate GivenUp(states: seq<State>, steps: seq<Step>, n: nat, key: Key)
    requires n <= |steps| < |states|
  {
    exists j: nat :: GivenUpAt(states, steps, n, key, j)
  }

  /** The keys recorded as aborted are those given up on since their last stored marker. */
  lemma {:induction false} AbortedIff(states: seq<State>, steps: seq<Step>, n: nat, key: Key)
    requires IsRun(states, steps) && n <= |steps|
    ensures key in states[n].aborted <==> GivenUp(states, steps, n, key)
  {
    if n > 0 {
      AbortedIff(states, steps, n - 1, key);
      assert TakesStep(states, steps, n - 1);
      if GivesUpOn(states[n - 1], steps[n - 1], key) {
        assert GivenUpAt(states, steps, n, key, n - 1);
      } else if key in states[n].aborted {
        var j: nat :| GivenUpAt(states, steps, n - 1, key, j);
        assert GivenUpAt(states, steps, n, key, j);
      }
      if GivenUp(states, steps, n, key) {
        var j: nat :| GivenUpAt(states, steps, n, key, j);
        assert j == n - 1 || GivenUpAt(states, steps, n - 1, key, j);
      }
    }
  }

  /** In every timely run, whenever nobody is between starting to write and marking, a marker at
    * manifest m over an existing tree means the tree is at m, unless a write of that key has
    * been given up since the marker was stored. */
  lemma {:induction false} MarkerIsSound(states: seq<State>, steps: seq<Step>, n: nat, key: Key)
    requires IsRun(states, steps) && n <= |steps|
    requires forall i :: 0 <= i < n ==> Timely(states[i])
    ensures Quiet(states[n], key) && !GivenUp(states, steps, n, key) ==> MarkerHolds(states[n], key)
  {
    TimelyStealsNothing(states, steps, n);
    MarkerInvHolds(states, steps, n);
    AbortedIff(states, steps, n, key);
  }

  // With no tree wiped and no marker read failing, that condition is exact.

  /** Where a marker is, there is a tree; */
  ghost predicate MarkedIsThere(s: State, key: Key) {
    key in s.synced ==> DiskAt(s, key) != Absent
  }

  /** whoever syncs a key plans another manifest than its marker's; */
  ghost predicate WritesAnother(s: State, w: Worker) {
    w in s.tasks && (s.tasks[w].stage.Syncing? || IsWriter(s.tasks[w])) && s.tasks[w].key in s.synced ==> s.synced[s.tasks[w].key] != s.tasks[w].plan
  }

  /** and a tree being written, or given up on, is not at its marker. */
  ghost predicate UnsettledIsElsewhere(s: State, key: Key) {
    key in s.synced && (key in s.aborted || !Quiet(s, key)) ==> DiskAt(s, key) != At(s.synced[key])
  }

  ghost predicate ExactInv(s: State) {
    && (forall key :: MarkedIsThere(s, key) && UnsettledIsElsewhere(s, key))
    && (forall w :: WritesAnother(s, w))
  }

  /** No tree is wiped, and no sync starts because its marker could not be read. */
  predicate Undisturbed(step: Step) {
    !step.Wipe? && !(step.StartSync? && step.unread)
  }

  lemma {:induction false} WritesAnotherStep(s: State, step: Step, w: Worker)
    requires LockInv(s) && ExactInv(s) && Enabled(s, step) && Undisturbed(step)
    ensures WritesAnother(Next(s, step), w)
  {
    assert WritesAnother(s, w);
    if step.StartSync? && step.w == w {
      assert MarkedIsThere(s, s.tasks[w].key);
    }
    if step.Mark? && w in s.tasks && HasGuard(s.tasks[w]) && s.tasks[w].key == s.tasks[step.w].key {
      OnlyWriter(s, w, step.w);
    }
  }

  lemma {:induction false} ElsewhereStep(s: State, step: Step, key: Key)
    requires LockInv(s) && MarkerInv(s) && ExactInv(s) && Enabled(s, step) && Undisturbed(step)
    ensures MarkedIsThere(Next(s, step), key) && UnsettledIsElsewhere(Next(s, step), key)
  {
    var s' := Next(s, step);
    assert MarkedIsThere(s, key) && UnsettledIsElsewhere(s, key);
    if step.FinishWrite? {
      assert WritesAnother(s, step.w);
    }
    if step.Mark? {
      assert WrittenIsThere(s, step.w) && WritesAnother(s, step.w);
      if s.tasks[step.w].key == key {
        MarkLeavesQuiet(s, step);
      }
    }
  }

  lemma MarkLeavesQuiet(s: State, step: Step)
    requires LockInv(s) && step.Mark? && Enabled(s, step)
    ensures Quiet(Next(s, step), s.tasks[step.w].key)
  {
    forall v | v in s.tasks && s.tasks[v].key == s.tasks[step.w].key && v != step.w ensures !IsWriter(s.tasks[v]) {
      if IsWriter(s.tasks[v]) {
        OnlyWriter(s, v, step.w);
      }
    }
  }

  lemma {:induction false} ExactInvHolds(states: seq<State>, steps: seq<Step>, n: nat)
    requires IsRun(states, steps) && n <= |steps|
    requires forall i :: 0 <= i < n ==> !StealsLive(states[i], steps[i]) && Undisturbed(steps[i])
    ensures ExactInv(states[n])
  {
    if n > 0 {
      ExactInvHolds(states, steps, n - 1);
      MarkerInvHolds(states, steps, n - 1);
      assert TakesStep(states, steps, n - 1);
      var s, step := states[n - 1], steps[n - 1];
      forall key ensures MarkedIsThere(Next(s, step), key) && UnsettledIsElsewhere(Next(s, step), key) {
        ElsewhereStep(s, step, key);
      }
      forall w ensures WritesAnother(Next(s, step), w) {
        WritesAnotherStep(s, step, w);
      }
    }
  }

  /** In every timely run in which no tree is wiped and every marker read gets through, whenever
    * nobody is between starting to write a key and marking it, its marker tells the truth if and
    * only if no write of the key has been given up since the last marker was stored. */
  lemma {:induction false} MarkerIsSoundIff(states: seq<State>, steps: seq<Step>, n: nat, key: Key)
    requires IsRun(states, steps) && n <= |steps|
    requires forall i :: 0 <= i < n ==> Timely(states[i]) && Undisturbed(steps[i])
    requires Quiet(states[n], key) && key in states[n].synced
    ensures DiskAt(states[n], key) == At(states[n].synced[key]) <==> !GivenUp(states, steps, n, key)
  {
    TimelyStealsNothing(states, steps, n);
    MarkerInvHolds(states, steps, n);
    ExactInvHolds(states, steps, n);
    AbortedIff(states, steps, n, key);
    assert MarkedIsThere(states[n], key) && UnsettledIsElsewhere(states[n], key);
    assert key !in states[n].aborted ==> MarkerHolds(states[n], key);
  }

  // With trees wiped as well, what counts is how the last write of the key ended.

  /** The step ends a write of `key`, or wipes its tree. */
  predicate Decides(s: State, step: Step, key: Key) {
    Marks(s, step, key) || GivesUpOn(s, step, key) || step == Wipe(key)
  }

  /** It gives up on a tree that is torn, or complete at another manifest than the marker's. */
  predicate Spoils(s: State, step: Step, key: Key) {
    GivesUpOn(s, step, key)
    && !(s.tasks[step.w].stage.Written? && key in s.synced && s.synced[key] == s.tasks[step.w].plan)
  }

  /** The last deciding step before state `n` spoiled the tree. */
  ghost predicate Spoiled(states: seq<State>, steps: seq<Step>, n: nat, key: Key)
    requires n <= |steps| < |states|
  {
    n > 0 && if Decides(states[n - 1], steps[n - 1], key) then Spoils(states[n - 1], steps[n - 1], key)
             else Spoiled(states, steps, n - 1, key)
  }

  ghost predicate WritingIsTorn(s: State, w: Worker) {
    w in s.tasks && s.tasks[w].stage.Writing? ==> DiskAt(s, s.tasks[w].key) == Torn
  }

  lemma {:induction false} WritingIsTornStep(s: State, step: Step, w: Worker)
    requires LockInv(s) && Enabled(s, step) && WritingIsTorn(s, w)
    ensures WritingIsTorn(Next(s, step), w)
  {
    if step.FinishWrite? && w in s.tasks && IsWriter(s.tasks[w]) && s.tasks[step.w].key == s.tasks[w].key {
      OnlyWriter(s, step.w, w);
    }
  }

  lemma {:induction false} WritingIsTornHolds(states: seq<State>, steps: seq<Step>, n: nat, w: Worker)
    requires IsRun(states, steps) && n <= |steps|
    requires forall i :: 0 <= i < n ==> !StealsLive(states[i], steps[i])
    ensures WritingIsTorn(states[n], w)
  {
    if n > 0 {
      WritingIsTornHolds(states, steps, n - 1, w);
      LockInvHolds(states, steps, n - 1);
      assert TakesStep(states, steps, n - 1);
      WritingIsTornStep(states[n - 1], steps[n - 1], w);
    }
  }

  /** A deciding step settles whether the marker tells the truth, */
  lemma {:induction false} DecidedMarker(s: State, step: Step, key: Key)
    requires LockInv(s) && MarkerInv(s) && Enabled(s, step) && Decides(s, step, key)
    requires !step.Wipe? ==> WritingIsTorn(s, step.w)
    requires key in Next(s, step).synced
    ensures MarkerHolds(Next(s, step), key) <==> !Spoils(s, step, key)
  {
    if !step.Wipe? {
      assert WrittenIsThere(s, step.w);
    }
  }

  /** and no other step between quiet moments touches marker or tree. */
  lemma {:induction false} UndecidedMarker(s: State, step: Step, key: Key)
    requires Enabled(s, step) && !Decides(s, step, key) && Quiet(Next(s, step), key) && key in Next(s, step).synced
    ensures Quiet(s, key) && key in s.synced && (MarkerHolds(Next(s, step), key) <==> MarkerHolds(s, key))
  {
    var s' := Next(s, step);
    forall w | w in s.tasks && s.tasks[w].key == key ensures !IsWriter(s.tasks[w]) {
      assert w in s'.tasks && s'.tasks[w].key == key;
    }
    if (step.StartWrite? || step.FinishWrite?) && s.tasks[step.w].key == key {
      assert IsWriter(s'.tasks[step.w]);
    }
  }

  /** In every timely run, whenever nobody is between starting to write a key and marking it, a
    * marker over a tree that is there tells the truth if and only if the last write of the key
    * to end, or wipe of it, was not one that left the tree torn or at another manifest. */
  lemma {:induction false} MarkerHoldsIff(states: seq<State>, steps: seq<Step>, n: nat, key: Key)
    requires IsRun(states, steps) && n <= |steps|
    requires forall i :: 0 <= i < n ==> Timely(states[i])
    requires Quiet(states[n], key) && key in states[n].synced
    ensures MarkerHolds(states[n], key) <==> !Spoiled(states, steps, n, key)
  {
    TimelyStealsNothing(states, steps, n);
    if n > 0 {
      assert TakesStep(states, steps, n - 1);
      var s, step := states[n - 1], steps[n - 1];
      MarkerInvHolds(states, steps, n - 1);
      if Decides(s, step, key) {
        if !step.Wipe? {
          WritingIsTornHolds(states, steps, n - 1, step.w);
        }
        DecidedMarker(s, step, key);
      } else {
        UndecidedMarker(s, step, key);
        MarkerHoldsIff(states, steps, n - 1, key);
      }
    }
  }

  /** A step that returns Ok from `download_one_depot`. */
  predicate Succeeds(step: Step) {
    step.Trust? || step.Mark?
  }

  /** On every timely interleaving, a successful call returns with the tree at its own plan's
    * manifest if and only if it wrote the tree itself, or the last write of the key to end did
    * not spoil it. */
  lemma {:induction false} SuccessIff(states: seq<State>, steps: seq<Step>, i: nat)
    requires IsRun(states, steps) && i < |steps| && Succeeds(steps[i])
    requires forall j :: 0 <= j < i ==> Timely(states[j])
    ensures steps[i].w in states[i].tasks
    ensures var t := states[i].tasks[steps[i].w];
            DiskAt(states[i + 1], t.key) == At(t.plan) <==> steps[i].Mark? || !Spoiled(states, steps, i, t.key)
  {
    TimelyStealsNothing(states, steps, i);
    MarkerInvHolds(states, steps, i);
    assert TakesStep(states, steps, i);
    var s, w := states[i], steps[i].w;
    if steps[i].Trust? {
      HolderSeesQuiet(s, w);
      MarkerHoldsIff(states, steps, i, s.tasks[w].key);
    } else {
      assert WrittenIsThere(s, w);
    }
  }

  lemma {:induction false} NothingSpoiled(states: seq<State>, steps: seq<Step>, n: nat, key: Key)
    requires n <= |steps| < |states|
    requires forall i :: 0 <= i < n ==> !GivesUp(states[i], steps[i])
    ensures !Spoiled(states, steps, n, key)
  {
    if n > 0 {
      NothingSpoiled(states, steps, n - 1, key);
    }
  }

  /** In particular every successful call returns with the tree at its own plan's manifest,
    * whether it wrote the tree itself or trusted another worker's marker, where each started
    * sync so far has completed and stored its marker. */
  lemma {:induction false} SuccessMeansOnDisk(states: seq<State>, steps: seq<Step>, i: nat)
    requires IsRun(states, steps) && i < |steps| && Succeeds(steps[i])
    requires forall j :: 0 <= j < i ==> Timely(states[j]) && !GivesUp(states[j], steps[j])
    ensures steps[i].w in states[i].tasks
    ensures DiskAt(states[i + 1], states[i].tasks[steps[i].w].key) == At(states[i].tasks[steps[i].w].plan)
  {
    SuccessIff(states, steps, i);
    NothingSpoiled(states, steps, i, states[i].tasks[steps[i].w].key);
  }

  // ---------------------------------------------------------------------------------------
  // What is in the tables, told from the steps

  /** Step `j` stored `m` as the marker of `key`, and nothing has replaced or dropped it since. */
  ghost predicate StoredAt(states: seq<State>, steps: seq<Step>, n: nat, key: Key, m: Manifest, j: nat)
    requires n <= |steps| < |states|
  {
    && j < n && Marks(states[j], steps[j], key) && states[j].tasks[steps[j].w].plan == m
    && forall i :: j < i < n ==> !Marks(states[i], steps[i], key) && steps[i] != Invalidate(key)
  }

  ghost predicate Stored(states: seq<State>, steps: seq<Step>, n: nat, key: Key, m: Manifest)
    requires n <= |steps| < |states|
  {
    exists j: nat :: StoredAt(states, steps, n, key, m, j)
  }

  predicate MarkerAt(s: State, key: Key, m: Manifest) {
    key in s.synced && s.synced[key] == m
  }

  /** In every run, the marker of a key is at `m` if and only if the last marker stored for it was
    * of a worker planning `m` and has not been invalidated since. */
  lemma {:induction false} MarkerAtIff(states: seq<State>, steps: seq<Step>, n: nat, key: Key, m: Manifest)
    requires IsRun(states, steps) && n <= |steps|
    ensures MarkerAt(states[n], key, m) <==> Stored(states, steps, n, key, m)
  {
    if n > 0 {
      MarkerAtIff(states, steps, n - 1, key, m);
      assert TakesStep(states, steps, n - 1);
      if MarkerAt(states[n], key, m) {
        if Marks(states[n - 1], steps[n - 1], key) {
          assert StoredAt(states, steps, n, key, m, n - 1);
        } else {
          var j: nat :| StoredAt(states, steps, n - 1, key, m, j);
          assert StoredAt(states, steps, n, key, m, j);
        }
      }
      if Stored(states, steps, n, key, m) {
        var j: nat :| StoredAt(states, steps, n, key, m, j);
        assert j == n - 1 || StoredAt(states, steps, n - 1, key, m, j);
      }
    }
  }

  /** The row of `key` is the business of its holder: one that still has its guard, has crashed,
    * or is among `lost`. */
  ghost predicate RowAccounted(s: State, key: Key, lost: set<Worker>) {
    key in s.locks ==>
      var w := s.locks[key].holder;
      w in s.tasks && s.tasks[w].key == key && (HasGuard(s.tasks[w]) || s.tasks[w].stage.Crashed? || w in lost)
  }

  lemma RowAccountedStep(s: State, step: Step, key: Key, lost: set<Worker>, lost': set<Worker>)
    requires Enabled(s, step) && RowAccounted(s, key, lost)
    requires lost <= lost' && (step.Release? && !step.deleted ==> step.w in lost')
    ensures RowAccounted(Next(s, step), key, lost')
  {
  }

  /** The workers whose release did not get through. */
  ghost function LostReleases(steps: seq<Step>): set<Worker> {
    set step | step in steps && step.Release? && !step.deleted :: step.w
  }

  /** In every run, a row is there only for a worker that still has its guard, has crashed, or
    * whose release did not get through: nobody who returns, well or badly, keeps the lock. */
  lemma {:induction false} NoRowIsForgotten(states: seq<State>, steps: seq<Step>, n: nat, key: Key)
    requires IsRun(states, steps) && n <= |steps|
    ensures RowAccounted(states[n], key, LostReleases(steps[..n]))
  {
    if n > 0 {
      NoRowIsForgotten(states, steps, n - 1, key);
      assert TakesStep(states, steps, n - 1);
      assert steps[..n] == steps[..n - 1] + [steps[n - 1]];
      RowAccountedStep(states[n - 1], steps[n - 1], key, LostReleases(steps[..n - 1]), LostReleases(steps[..n]));
    }
  }

  /** The step ends a call of `download_one_depot` that had taken the lock. */
  predicate EndsCall(step: Step) {
    step.Trust? || step.FailWrite? || step.FailFinalize? || step.Mark?
  }

  /** Whoever returns, well or badly, still has its guard, owes its release, and can run it; */
  lemma ReturnOwesRelease(s: State, step: Step, deleted: bool)
    requires Enabled(s, step) && EndsCall(step)
    ensures HasGuard(s.tasks[step.w])
    ensures Next(s, step).tasks == s.tasks[step.w := s.tasks[step.w].(stage := Dropped(s.tasks[step.w].stage.acquiredAt))]
    ensures Enabled(Next(s, step), Release(step.w, deleted)) && Next(s, step).locks == s.locks
  {
  }

  /** a guard ends only with its release or with its process; */
  lemma GuardEndsOnlyBy(s: State, step: Step, w: Worker)
    requires Enabled(s, step) && w in s.tasks && HasGuard(s.tasks[w]) && !HasGuard(Next(s, step).tasks[w])
    ensures step == Crash(w) || step == Release(w, true) || step == Release(w, false)
  {
  }

  /** a release that gets through frees its key and no other, and one that does not leaves the row
    * to the stale limit. */
  lemma ReleaseFreesItsKey(s: State, w: Worker, k: Key)
    requires w in s.tasks && s.tasks[w].stage.Dropped?
    ensures Next(s, Release(w, false)).locks == s.locks
    ensures s.tasks[w].key !in Next(s, Release(w, true)).locks
    ensures k != s.tasks[w].key ==> (k in Next(s, Release(w, true)).locks <==> k in s.locks)
    ensures k in Next(s, Release(w, true)).locks ==> Next(s, Release(w, true)).locks[k] == s.locks[k]
  {
  }

  /** Step `j` is where `w` returned. */
  ghost predicate ReturnedAt(steps: seq<Step>, n: nat, w: Worker, j: nat)
    requires n <= |steps|
  {
    j < n && EndsCall(steps[j]) && steps[j].w == w
  }

  lemma {:induction false} DroppedHasReturned(states: seq<State>, steps: seq<Step>, n: nat, w: Worker) returns (j: nat)
    requires IsRun(states, steps) && n <= |steps| && w in states[n].tasks && states[n].tasks[w].stage.Dropped?
    ensures ReturnedAt(steps, n, w, j)
  {
    assert TakesStep(states, steps, n - 1);
    if EndsCall(steps[n - 1]) && steps[n - 1].w == w {
      j := n - 1;
    } else {
      j := DroppedHasReturned(states, steps, n - 1, w);
    }
  }

  /** In every run a lock is released only by a worker whose call has returned. */
  lemma {:induction false} ReleaseFollowsReturn(states: seq<State>, steps: seq<Step>, k: nat) returns (j: nat)
    requires IsRun(states, steps) && k < |steps| && steps[k].Release?
    ensures ReturnedAt(steps, k, steps[k].w, j)
  {
    assert TakesStep(states, steps, k);
    j := DroppedHasReturned(states, steps, k, steps[k].w);
  }

  /** What the world may do at any time: a marker read fails, a sync fails before or after it has
    * touched the tree or needs to touch nothing, a worker crashes, a marker is invalidated, a tree
    * nobody is writing is wiped. */
  lemma WorldIsOpen(s: State, w: Worker, key: Key)
    requires w in s.tasks
    ensures s.tasks[w].stage.Holding? ==> Enabled(s, StartSync(w, true))
    ensures s.tasks[w].stage.Syncing? || s.tasks[w].stage.Writing? ==> Enabled(s, FailWrite(w)) && Enabled(s, FinishWrite(w))
    ensures s.tasks[w].stage.Written? ==> Enabled(s, FailFinalize(w)) && Enabled(s, Mark(w, false))
    ensures Enabled(s, Crash(w)) && Enabled(s, Invalidate(key)) && (Quiet(s, key) ==> Enabled(s, Wipe(key)))
  {
  }

  /** A row that is not stale is left alone, and the worker that found it goes back to waiting. */
  lemma FreshRowIsNotStolen(s: State, w: Worker)
    requires w in s.tasks && s.tasks[w].stage.Refused? && !IsStale(s.locks, s.tasks[w].key, s.tasks[w].stage.now)
    ensures Enabled(s, Steal(w)) && Next(s, Steal(w)).locks == s.locks
    ensures Next(s, Steal(w)).tasks == s.tasks[w := s.tasks[w].(stage := Waiting)]
  {
  }

  // ---------------------------------------------------------------------------------------
  // Recovery, and the two assumptions

  /** Once a row is older than the limit, any waiting worker can take the key in three steps,
    * whatever became of the holder. */
  lemma StaleKeyIsAcquirable(s: State, w: Worker)
    requires w in s.tasks && s.tasks[w].stage.Waiting? && IsStale(s.locks, s.tasks[w].key, s.clock)
    ensures Enabled(s, Stamp(w))
    ensures var s1 := Next(s, Stamp(w));
            && Enabled(s1, Insert(w))
            && var s2 := Next(s1, Insert(w));
               && Enabled(s2, Steal(w))
               && var s3 := Next(s2, Steal(w));
                  Guards(s3, w, s.tasks[w].key) && s3.locks[s.tasks[w].key] == LockRow(w, s.clock)
  {
  }

  /** `states` is what happens when `steps` are taken in turn from `states[0]`. */
  ghost predicate IsPath(states: seq<State>, steps: seq<Step>) {
    |states| == |steps| + 1 && forall i :: 0 <= i < |steps| ==> TakesStep(states, steps, i)
  }

  lemma PathsJoin(a: seq<State>, x: seq<Step>, b: seq<State>, y: seq<Step>)
    requires IsPath(a, x) && IsPath(b, y) && a[|x|] == b[0]
    ensures IsPath(a + b[1..], x + y)
    ensures (a + b[1..])[0] == a[0] && (a + b[1..])[|x + y|] == b[|y|]
  {
    var states, steps := a + b[1..], x + y;
    forall i | 0 <= i < |steps| ensures TakesStep(states, steps, i) {
      if i < |x| {
        assert TakesStep(a, x, i);
      } else {
        assert TakesStep(b, y, i - |x|);
      }
    }
  }

  /** A worker that finds the key free gets it. */
  lemma AcquirePath(s: State, key: Key, plan: Manifest, w: Worker) returns (states: seq<State>, steps: seq<Step>)
    requires key !in s.locks && w !in s.tasks
    ensures IsPath(states, steps) && states[0] == s
    ensures states[|steps|] == s.(tasks := s.tasks[w := Task(key, plan, Holding(s.clock))],
                                  locks := s.locks[key := LockRow(w, s.clock)])
  {
    var s1 := Next(s, Begin(w, key, plan));
    var s2 := Next(s1, Stamp(w));
    var s3 := Next(s2, Insert(w));
    states, steps := [s, s1, s2, s3], [Begin(w, key, plan), Stamp(w), Insert(w)];
  }

  lemma WritePath(s: State, w: Worker) returns (states: seq<State>, steps: seq<Step>)
    requires w in s.tasks && s.tasks[w].stage.Holding? && !TrustsMarker(s, s.tasks[w])
    ensures IsPath(states, steps) && states[0] == s
    ensures var t := s.tasks[w];
            states[|steps|] == s.(tasks := s.tasks[w := t.(stage := Written(t.stage.acquiredAt))],
                                  disk := s.disk[t.key := At(t.plan)])
  {
    var s1 := Next(s, StartSync(w, false));
    var s2 := Next(s1, StartWrite(w));
    var s3 := Next(s2, FinishWrite(w));
    states, steps := [s, s1, s2, s3], [StartSync(w, false), StartWrite(w), FinishWrite(w)];
    assert s3.disk == s.disk[s.tasks[w].key := At(s.tasks[w].plan)];
    assert s3.tasks == s.tasks[w := s.tasks[w].(stage := Written(s.tasks[w].stage.acquiredAt))];
  }

  lemma MarkPath(s: State, w: Worker) returns (states: seq<State>, steps: seq<Step>)
    requires w in s.tasks && s.tasks[w].stage.Written?
    ensures IsPath(states, steps) && states[0] == s
    ensures var t := s.tasks[w];
            states[|steps|] == s.(tasks := s.tasks[w := t.(stage := Finished)], locks := s.locks - {t.key},
                                  synced := s.synced[t.key := t.plan], aborted := s.aborted - {t.key})
  {
    var s1 := Next(s, Mark(w, true));
    var s2 := Next(s1, Release(w, true));
    states, steps := [s, s1, s2], [Mark(w, true), Release(w, true)];
    assert s2.tasks == s.tasks[w := s.tasks[w].(stage := Finished)];
  }

  /** One whole sync of a free key: the worker takes the lock, writes the tree, stores its marker
    * and lets go. Nothing else is touched. */
  lemma {:induction false} SyncPath(s: State, key: Key, plan: Manifest, w: Worker) returns (states: seq<State>, steps: seq<Step>)
    requires key !in s.locks && w !in s.tasks && !IsSynced(s.synced, key, plan, DiskAt(s, key) != Absent)
    ensures IsPath(states, steps) && states[0] == s
    ensures states[|steps|] == s.(tasks := s.tasks[w := Task(key, plan, Finished)], synced := s.synced[key := plan],
                                  disk := s.disk[key := At(plan)], aborted := s.aborted - {key})
  {
    var a, x := AcquirePath(s, key, plan, w);
    var s0 := a[|x|];
    var b, y := WritePath(s0, w);
    PathsJoin(a, x, b, y);
    var s1 := b[|y|];
    var c, z := MarkPath(s1, w);
    PathsJoin(a + b[1..], x + y, c, z);
    states, steps := (a + b[1..]) + c[1..], (x + y) + z;
    assert s1.locks - {key} == s.locks;
    assert s1.tasks[w := Task(key, plan, Finished)] == s.tasks[w := Task(key, plan, Finished)];
  }

  /** After it, a second worker with the same plan trusts the marker, and the tree is at its plan. */
  lemma {:induction false} SecondWorkerTrusts(s: State, key: Key, plan: Manifest, v: Worker, w: Worker)
    returns (states: seq<State>, steps: seq<Step>)
    requires key !in s.locks && v !in s.tasks && w !in s.tasks && v != w
    requires !IsSynced(s.synced, key, plan, DiskAt(s, key) != Absent)
    ensures IsPath(states, steps) && states[0] == s
    ensures var t := states[|steps|];
            Enabled(t, Trust(w)) && t.tasks[w] == Task(key, plan, Holding(s.clock)) && DiskAt(t, key) == At(plan)
  {
    var a, x := SyncPath(s, key, plan, v);
    var b, y := AcquirePath(a[|x|], key, plan, w);
    PathsJoin(a, x, b, y);
    states, steps := a + b[1..], x + y;
  }

  /** A holder that crashes, at whatever point, keeps its row; once the limit has passed, another
    * worker gets the key all the same. */
  lemma {:induction false} CrashedKeyIsAcquirable(s: State, v: Worker, w: Worker, plan: Manifest)
    returns (states: seq<State>, steps: seq<Step>)
    requires v in s.tasks && w !in s.tasks && Backed(s, v) && HasGuard(s.tasks[v])
    requires s.tasks[v].stage.acquiredAt <= s.clock
    ensures IsPath(states, steps) && states[0] == s
    ensures var t := states[|steps|];
            && v in t.tasks && t.tasks[v].stage.Crashed?
            && w in t.tasks && t.tasks[w].key == s.tasks[v].key && t.tasks[w].stage.Holding?
  {
    var key := s.tasks[v].key;
    var s1 := Next(s, Crash(v));
    var s2 := Next(s1, Tick(STALE_LOCK_SECS + 1));
    var s3 := Next(s2, Begin(w, key, plan));
    assert IsStale(s3.locks, key, s3.clock);
    StaleKeyIsAcquirable(s3, w);
    var s4 := Next(s3, Stamp(w));
    var s5 := Next(s4, Insert(w));
    var s6 := Next(s5, Steal(w));
    states := [s, s1, s2, s3, s4, s5, s6];
    steps := [Crash(v), Tick(STALE_LOCK_SECS + 1), Begin(w, key, plan), Stamp(w), Insert(w), Steal(w)];
  }

  /** A write can fail at its very end too: then the new tree stands under the old marker. */
  lemma FailedFinalizeKeepsMarker(s: State, w: Worker)
    requires w in s.tasks && s.tasks[w].stage.Written? && DiskAt(s, s.tasks[w].key) == At(s.tasks[w].plan)
    ensures Enabled(s, FailFinalize(w))
    ensures var t := Next(s, FailFinalize(w));
            t.synced == s.synced && t.disk == s.disk && s.tasks[w].key in t.aborted && t.tasks[w].stage.Dropped?
  {
  }

  /** The hold-time bound is needed: from any state in which nobody has the key, a holder that
    * outlasts the limit by one second is robbed, and two guards exist. */
  lemma {:induction false} LateHolderIsRobbed(s: State, key: Key, plan: Manifest, v: Worker, w: Worker)
    returns (states: seq<State>, steps: seq<Step>)
    requires key !in s.locks && v !in s.tasks && w !in s.tasks && v != w
    ensures IsPath(states, steps) && states[0] == s && !Exclusive(states[|steps|])
  {
    var a, x := AcquirePath(s, key, plan, v);
    var s1 := Next(a[|x|], Tick(STALE_LOCK_SECS + 1));
    var s2 := Next(s1, Begin(w, key, plan));
    var s3 := Next(s2, Stamp(w));
    var s4 := Next(s3, Insert(w));
    var s5 := Next(s4, Steal(w));
    var b, y := [a[|x|], s1, s2, s3, s4, s5], [Tick(STALE_LOCK_SECS + 1), Begin(w, key, plan), Stamp(w), Insert(w), Steal(w)];
    PathsJoin(a, x, b, y);
    states, steps := a + b[1..], x + y;
    assert Guards(s5, v, key) && Guards(s5, w, key);
  }

  /** Completion is needed too: after a write that is given up, a worker planning the manifest
    * of the old marker trusts a tree that is torn. */
  lemma {:induction false} TornTreeIsTrusted(s: State, key: Key, m: Manifest, m': Manifest, v: Worker, w: Worker)
    returns (states: seq<State>, steps: seq<Step>)
    requires key !in s.locks && v !in s.tasks && w !in s.tasks && v != w
    requires m != m' && key in s.synced && s.synced[key] == m && DiskAt(s, key) == At(m)
    ensures IsPath(states, steps) && states[0] == s
    ensures var t := states[|steps|]; Enabled(t, Trust(w)) && t.tasks[w].plan == m && DiskAt(t, key) == Torn
  {
    var a, x := AcquirePath(s, key, m', v);
    var b, y := GiveUpPath(a[|x|], v);
    PathsJoin(a, x, b, y);
    var c, z := AcquirePath(b[|y|], key, m, w);
    PathsJoin(a + b[1..], x + y, c, z);
    states, steps := (a + b[1..]) + c[1..], (x + y) + z;
  }

  lemma GiveUpPath(s: State, v: Worker) returns (states: seq<State>, steps: seq<Step>)
    requires v in s.tasks && s.tasks[v].stage.Holding? && !TrustsMarker(s, s.tasks[v])
    ensures IsPath(states, steps) && states[0] == s
    ensures var t, key := states[|steps|], s.tasks[v].key;
            && t.locks == s.locks - {key} && t.synced == s.synced && t.clock == s.clock
            && t.tasks.Keys == s.tasks.Keys && DiskAt(t, key) == Torn
  {
    var s1 := Next(s, StartSync(v, false));
    var s2 := Next(s1, StartWrite(v));
    var s3 := Next(s2, FailWrite(v));
    var s4 := Next(s3, Release(v, true));
    states, steps := [s, s1, s2, s3, s4], [StartSync(v, false), StartWrite(v), FailWrite(v), Release(v, true)];
  }
}
