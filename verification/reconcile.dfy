/** The `ArmaServer` reconciler, interleaved with the gateway's writes.
  *
  * A pass reads the object once and then makes one cluster call after another; gateway writes
  * land between any two of them, and any call can fail. One pass runs at a time.
  */
module Reconcile {
  import opened Results

  datatype Phase = Stopped | Pending | Running | Failed

  /** How far the current pass has got. */
  datatype Pass =
    | Resting                    // no pass under way
    | ToPending                  // read Stopped or Failed with Running desired: record Pending
    | ToScaleDown                // read a phase other than Stopped with Stopped desired
    | ToDeleteClients            // scaled down; clients go one by one
    | ToRecordStopped            // clients gone
    | ToDeploy(want: nat)        // read Pending, gates open, and how many clients are wanted
    | ToMatchClients(want: nat)  // Deployment applied; clients created and deleted one by one
    | ToRecord(phase: Phase)     // provisioning over, well or badly

  /** The object's spec and status and what exists for it. `clients` are the indices of its
    * headless clients; `wounded` says that a stop was broken off after scaling down and nothing
    * has been recorded or deployed since. */
  datatype Cluster = Cluster(
    desiredRunning: bool,
    headlessClients: nat,
    phase: Phase,
    replicas: Option<nat>,
    clients: set<nat>,
    pass: Pass,
    wounded: bool)

  datatype Step =
    | SetDesired(running: bool)         // gateway: start or stop writes desired_state
    | SetPending                        // gateway: start or update resets the phase
    | EditClients(count: nat)           // an operator edits spec.headless_clients
    | Observe(gatesOpen: bool)          // a pass begins: read the object, and the sync gates
    | RecordPending
    | ScaleDown
    | DeleteClient(index: nat)
    | ClientsGone
    | RecordStopped
    | ProvisionFails                    // mod paths, config, Deployment or clients
    | Deploy
    | MatchClient(index: nat)           // delete an excess client or create a missing one
    | ClientsMatch
    | RecordOutcome
    | Break                             // any other call fails, or the controller restarts

  function FirstIndices(n: nat): (r: set<nat>)
    ensures forall i: nat :: i in r <==> i < n
  {
    if n == 0 then {} else FirstIndices(n - 1) + {n - 1}
  }

  /** Which call `apply` makes first for what it read. */
  function FirstCall(c: Cluster, gatesOpen: bool): Pass {
    match c.phase
    case Stopped => if c.desiredRunning then ToPending else Resting
    case Pending => if !c.desiredRunning then ToScaleDown else if gatesOpen then ToDeploy(c.headlessClients) else Resting
    case Running => if !c.desiredRunning then ToScaleDown else Resting
    case Failed => if !c.desiredRunning then ToScaleDown else ToPending
  }

  predicate Enabled(c: Cluster, step: Step) {
    match step
    case SetDesired(_) => true
    case SetPending => true
    case EditClients(_) => true
    case Observe(_) => c.pass == Resting
    case RecordPending => c.pass == ToPending
    case ScaleDown => c.pass == ToScaleDown
    case DeleteClient(i) => c.pass == ToDeleteClients && i in c.clients
    case ClientsGone => c.pass == ToDeleteClients && c.clients == {}
    case RecordStopped => c.pass == ToRecordStopped
    case ProvisionFails => c.pass.ToDeploy? || c.pass.ToMatchClients?
    case Deploy => c.pass.ToDeploy?
    case MatchClient(i) => c.pass.ToMatchClients? && (i in c.clients <==> i >= c.pass.want)
    case ClientsMatch => c.pass.ToMatchClients? && c.clients == FirstIndices(c.pass.want)
    case RecordOutcome => c.pass.ToRecord?
    case Break => c.pass != Resting
  }

  predicate ScaledDown(pass: Pass) {
    pass == ToDeleteClients || pass == ToRecordStopped
  }

  function Next(c: Cluster, step: Step): Cluster
    requires Enabled(c, step)
  {
    match step
    case SetDesired(running) => c.(desiredRunning := running)
    case SetPending => c.(phase := Pending)
    case EditClients(count) => c.(headlessClients := count)
    case Observe(gatesOpen) => c.(pass := FirstCall(c, gatesOpen))
    case RecordPending => c.(phase := Pending, pass := Resting)
    case ScaleDown => c.(replicas := if c.replicas.None? then None else Some(0), pass := ToDeleteClients)
    case DeleteClient(i) => c.(clients := c.clients - {i})
    case ClientsGone => c.(pass := ToRecordStopped)
    case RecordStopped => c.(phase := Stopped, pass := Resting, wounded := false)
    case ProvisionFails => c.(pass := ToRecord(Failed))
    case Deploy => c.(replicas := Some(1), pass := ToMatchClients(c.pass.want), wounded := false)
    case MatchClient(i) => c.(clients := if i in c.clients then c.clients - {i} else c.clients + {i})
    case ClientsMatch => c.(pass := ToRecord(Running))
    case RecordOutcome => c.(phase := c.pass.phase, pass := Resting)
    case Break => c.(pass := Resting, wounded := c.wounded || ScaledDown(c.pass))
  }

  /** A new object: no status yet, nothing deployed. */
  predicate Created(c: Cluster) {
    c.phase == Stopped && c.replicas == None && c.clients == {} && c.pass == Resting && !c.wounded
  }

  /** A new object may ask for either state and for any number of clients. */
  lemma NewObjectIsCreated(running: bool, count: nat)
    ensures Created(Cluster(running, count, Stopped, None, {}, Resting, false))
  {
  }

  predicate IsDown(c: Cluster) {
    c.replicas == None || c.replicas == Some(0)
  }

  predicate Provisioning(pass: Pass) {
    pass.ToDeploy? || pass.ToMatchClients? || pass.ToRecord?
  }

  predicate UpUnlessWounded(c: Cluster) {
    && (c.wounded || ScaledDown(c.pass) ==> IsDown(c))
    && (c.pass.ToMatchClients? || c.pass == ToRecord(Running) ==> c.replicas == Some(1))
    && (c.phase == Running && !c.wounded && !ScaledDown(c.pass) ==> c.replicas == Some(1))
  }

  ghost predicate Inv(c: Cluster) {
    && (c.phase == Stopped ==> IsDown(c) && c.clients == {})
    && (c.pass == ToRecordStopped ==> c.clients == {})
    && (Provisioning(c.pass) ==> c.phase != Stopped)
    && (c.pass.ToRecord? ==> c.pass.phase == Running || c.pass.phase == Failed)
    && UpUnlessWounded(c)
  }

  lemma InvStep(c: Cluster, step: Step)
    requires Inv(c) && Enabled(c, step)
    ensures Inv(Next(c, step))
  {
  }

  ghost predicate IsRun(states: seq<Cluster>, steps: seq<Step>) {
    |states| == |steps| + 1 && Created(states[0]) && forall i :: 0 <= i < |steps| ==> Follows(states, steps, i)
  }

  ghost predicate Follows(states: seq<Cluster>, steps: seq<Step>, i: nat)
    requires i < |steps| < |states|
  {
    Enabled(states[i], steps[i]) && states[i + 1] == Next(states[i], steps[i])
  }

  /** The gateway's writes land at any point of a pass and touch one field each. */
  lemma GatewayWritesAnyTime(c: Cluster, running: bool, count: nat)
    ensures Enabled(c, SetDesired(running)) && Next(c, SetDesired(running)) == c.(desiredRunning := running)
    ensures Enabled(c, SetPending) && Next(c, SetPending) == c.(phase := Pending)
    ensures Enabled(c, EditClients(count)) && Next(c, EditClients(count)) == c.(headlessClients := count)
  {
  }

  lemma {:induction false} InvHolds(states: seq<Cluster>, steps: seq<Step>, k: nat)
    requires IsRun(states, steps) && k <= |steps|
    ensures Inv(states[k])
  {
    if k > 0 {
      InvHolds(states, steps, k - 1);
      assert Follows(states, steps, k - 1);
      InvStep(states[k - 1], steps[k - 1]);
    }
  }

  /** On every interleaving, phase Stopped means that the Deployment is absent or at zero
    * replicas and that the server has no headless clients. */
  lemma {:induction false} StoppedMeansDown(states: seq<Cluster>, steps: seq<Step>, k: nat)
    requires IsRun(states, steps) && k <= |steps|
    ensures states[k].phase == Stopped ==> IsDown(states[k]) && states[k].clients == {}
  {
    InvHolds(states, steps, k);
  }

  /** In step `j` a stop broke off after scaling down, and by state `k` nothing has been deployed
    * or recorded as stopped since. */
  ghost predicate BrokenOffAt(states: seq<Cluster>, steps: seq<Step>, k: nat, j: nat)
    requires k <= |steps| < |states|
  {
    && j < k && steps[j].Break? && ScaledDown(states[j].pass)
    && forall i :: j < i < k ==> !steps[i].Deploy? && !steps[i].RecordStopped?
  }

  ghost predicate BrokenOff(states: seq<Cluster>, steps: seq<Step>, k: nat)
    requires k <= |steps| < |states|
  {
    exists j: nat :: BrokenOffAt(states, steps, k, j)
  }

  /** The flag the model keeps records exactly that. */
  lemma {:induction false} WoundedIff(states: seq<Cluster>, steps: seq<Step>, k: nat)
    requires IsRun(states, steps) && k <= |steps|
    ensures states[k].wounded <==> BrokenOff(states, steps, k)
  {
    if k > 0 {
      WoundedIff(states, steps, k - 1);
      assert Follows(states, steps, k - 1);
      if steps[k - 1].Break? && ScaledDown(states[k - 1].pass) {
        assert BrokenOffAt(states, steps, k, k - 1);
      } else if states[k].wounded {
        var j: nat :| BrokenOffAt(states, steps, k - 1, j);
        assert BrokenOffAt(states, steps, k, j);
      }
      if BrokenOff(states, steps, k) {
        var j: nat :| BrokenOffAt(states, steps, k, j);
        assert j == k - 1 || BrokenOffAt(states, steps, k - 1, j);
      }
    }
  }

  /** Between passes, phase Running means one replica if and only if no stop has broken off
    * after scaling down without a Deploy or a recorded stop since. */
  lemma {:induction false} RunningIsUpIff(states: seq<Cluster>, steps: seq<Step>, k: nat)
    requires IsRun(states, steps) && k <= |steps|
    requires states[k].phase == Running && states[k].pass == Resting
    ensures states[k].replicas == Some(1) <==> !BrokenOff(states, steps, k)
  {
    InvHolds(states, steps, k);
    WoundedIff(states, steps, k);
  }

  // ---------------------------------------------------------------------------------------
  // Convergence

  /** The steps of passes whose calls all succeed, with the sync gates open. */
  predicate Smooth(step: Step) {
    match step
    case SetDesired(_) => false
    case SetPending => false
    case EditClients(_) => false
    case Observe(gatesOpen) => gatesOpen
    case ProvisionFails => false
    case Break => false
    case _ => true
  }

  /** The recorded phase is the one the desired state asks for, and no pass is under way. */
  predicate Matching(c: Cluster) {
    c.pass == Resting && c.phase == if c.desiredRunning then Running else Stopped
  }

  /** The clients that have to be created or deleted to have exactly `want`. */
  ghost function Wrong(clients: set<nat>, want: nat): set<nat> {
    (clients - FirstIndices(want)) + (FirstIndices(want) - clients)
  }

  /** Steps from a rested state recorded as `phase`, holding `clients`, to the matching one. */
  ghost function FromRest(run: bool, want: nat, phase: Phase, clients: set<nat>): nat {
    if !run then
      if phase == Stopped then 0 else 4 + |clients|
    else
      match phase
      case Running => 0
      case Pending => 4 + |Wrong(clients, want)|
      case _ => 6 + |Wrong(clients, want)|
  }

  /** Steps from a rested state recorded as Running with `clients` clients. */
  ghost function FromRunning(c: Cluster, clients: nat): nat {
    if c.desiredRunning then 0 else 4 + clients
  }

  /** Steps that a smooth run still has to take before the phase matches. */
  ghost function Distance(c: Cluster): nat {
    match c.pass
    case Resting => FromRest(c.desiredRunning, c.headlessClients, c.phase, c.clients)
    case ToPending => 1 + FromRest(c.desiredRunning, c.headlessClients, Pending, c.clients)
    case ToScaleDown => 3 + |c.clients| + FromRest(c.desiredRunning, c.headlessClients, Stopped, {})
    case ToDeleteClients => 2 + |c.clients| + FromRest(c.desiredRunning, c.headlessClients, Stopped, {})
    case ToRecordStopped => 1 + FromRest(c.desiredRunning, c.headlessClients, Stopped, {})
    case ToDeploy(want) => 3 + |Wrong(c.clients, want)| + FromRunning(c, want)
    case ToMatchClients(want) => 2 + |Wrong(c.clients, want)| + FromRunning(c, want)
    case ToRecord(phase) => 1 + FromRest(c.desiredRunning, c.headlessClients, phase, c.clients)
  }

  lemma {:induction false} FirstIndicesCount(n: nat)
    ensures |FirstIndices(n)| == n
  {
    if n > 0 {
      FirstIndicesCount(n - 1);
    }
  }

  /** `clients` after creating or deleting client `i`. */
  ghost function Toggled(clients: set<nat>, i: nat): set<nat> {
    if i in clients then clients - {i} else clients + {i}
  }

  lemma ToggleCorrects(clients: set<nat>, want: nat, i: nat)
    requires i in clients <==> i >= want
    ensures i in Wrong(clients, want)
    ensures Wrong(Toggled(clients, i), want) == Wrong(clients, want) - {i}
  {
  }

  lemma MatchCorrectsOne(clients: set<nat>, want: nat, i: nat)
    requires i in clients <==> i >= want
    ensures |Wrong(Toggled(clients, i), want)| == |Wrong(clients, want)| - 1
  {
    ToggleCorrects(clients, want, i);
  }

  lemma ObserveToStop(c: Cluster)
    requires c.pass == Resting && !c.desiredRunning && c.phase != Stopped
    ensures Distance(Next(c, Observe(true))) == Distance(c) - 1
  {
    assert FirstCall(c, true) == ToScaleDown;
  }

  lemma ObserveToDeploy(c: Cluster)
    requires c.pass == Resting && c.desiredRunning && c.phase == Pending
    ensures Distance(Next(c, Observe(true))) == Distance(c) - 1
  {
    assert FirstCall(c, true) == ToDeploy(c.headlessClients);
  }

  lemma ObserveToPending(c: Cluster)
    requires c.pass == Resting && c.desiredRunning && (c.phase == Stopped || c.phase == Failed)
    ensures Distance(Next(c, Observe(true))) == Distance(c) - 1
  {
    assert FirstCall(c, true) == ToPending;
  }

  lemma DeleteApproaches(c: Cluster, i: nat)
    requires c.pass == ToDeleteClients && i in c.clients
    ensures Distance(Next(c, DeleteClient(i))) == Distance(c) - 1
  {
    assert c.clients == (c.clients - {i}) + {i};
  }

  lemma MatchApproaches(c: Cluster, i: nat)
    requires c.pass.ToMatchClients? && (i in c.clients <==> i >= c.pass.want)
    ensures Distance(Next(c, MatchClient(i))) == Distance(c) - 1
  {
    MatchCorrectsOne(c.clients, c.pass.want, i);
    assert Next(c, MatchClient(i)) == c.(clients := Toggled(c.clients, i));
  }

  lemma ClientsMatchApproaches(c: Cluster)
    requires c.pass.ToMatchClients? && c.clients == FirstIndices(c.pass.want)
    ensures Distance(Next(c, ClientsMatch)) == Distance(c) - 1
  {
    assert Wrong(c.clients, c.pass.want) == {};
    FirstIndicesCount(c.pass.want);
  }

  lemma ScaleDownApproaches(c: Cluster)
    requires c.pass == ToScaleDown
    ensures Distance(Next(c, ScaleDown)) == Distance(c) - 1
  {
  }

  lemma ClientsGoneApproaches(c: Cluster)
    requires c.pass == ToDeleteClients && c.clients == {}
    ensures Distance(Next(c, ClientsGone)) == Distance(c) - 1
  {
  }

  lemma RecordStoppedApproaches(c: Cluster)
    requires c.pass == ToRecordStopped && c.clients == {}
    ensures Distance(Next(c, RecordStopped)) == Distance(c) - 1
  {
  }

  lemma RecordPendingApproaches(c: Cluster)
    requires c.pass == ToPending
    ensures Distance(Next(c, RecordPending)) == Distance(c) - 1
  {
  }

  lemma DeployApproaches(c: Cluster)
    requires c.pass.ToDeploy?
    ensures Distance(Next(c, Deploy)) == Distance(c) - 1
  {
  }

  lemma RecordOutcomeApproaches(c: Cluster)
    requires c.pass.ToRecord?
    ensures Distance(Next(c, RecordOutcome)) == Distance(c) - 1
  {
  }

  /** Every smooth step from a state that does not match brings it one step closer. */
  lemma {:induction false} SmoothStepsApproach(c: Cluster, step: Step)
    requires Inv(c) && Smooth(step) && Enabled(c, step) && !Matching(c)
    ensures Distance(Next(c, step)) == Distance(c) - 1
  {
    match step
    case Observe(_) =>
      if !c.desiredRunning {
        ObserveToStop(c);
      } else if c.phase == Pending {
        ObserveToDeploy(c);
      } else {
        ObserveToPending(c);
      }
    case DeleteClient(i) => DeleteApproaches(c, i);
    case MatchClient(i) => MatchApproaches(c, i);
    case ClientsMatch => ClientsMatchApproaches(c);
    case ScaleDown => ScaleDownApproaches(c);
    case ClientsGone => ClientsGoneApproaches(c);
    case RecordStopped => RecordStoppedApproaches(c);
    case RecordPending => RecordPendingApproaches(c);
    case Deploy => DeployApproaches(c);
    case RecordOutcome => RecordOutcomeApproaches(c);
  }

  /** A pass over a state that matches changes nothing. */
  lemma SmoothStepsStay(c: Cluster, step: Step)
    requires Smooth(step) && Enabled(c, step) && Matching(c)
    ensures Next(c, step) == c
  {
  }

  lemma SomeWrong(clients: set<nat>, want: nat) returns (i: nat)
    requires clients != FirstIndices(want)
    ensures i in clients <==> i >= want
  {
    var want' := FirstIndices(want);
    assert clients - want' == {} && want' - clients == {} ==> clients <= want' <= clients;
    if clients - want' != {} {
      i :| i in clients - want';
    } else {
      i :| i in want' - clients;
    }
  }

  /** A pass can always go on. */
  lemma {:induction false} SmoothStepExists(c: Cluster) returns (step: Step)
    ensures Smooth(step) && Enabled(c, step)
  {
    match c.pass
    case Resting => step := Observe(true);
    case ToPending => step := RecordPending;
    case ToScaleDown => step := ScaleDown;
    case ToDeleteClients =>
      if c.clients == {} {
        step := ClientsGone;
      } else {
        var i :| i in c.clients;
        step := DeleteClient(i);
      }
    case ToRecordStopped => step := RecordStopped;
    case ToDeploy(_) => step := Deploy;
    case ToMatchClients(want) =>
      if c.clients == FirstIndices(want) {
        step := ClientsMatch;
      } else {
        var i := SomeWrong(c.clients, want);
        step := MatchClient(i);
      }
    case ToRecord(_) => step := RecordOutcome;
  }

  /** From any state a run can be in, with a constant desired state, open gates and no failing
    * call, every run of `Distance(c)` steps or more ends with the matching phase recorded. */
  lemma {:induction false} SmoothRunConverges(states: seq<Cluster>, steps: seq<Step>)
    requires |states| == |steps| + 1 && Inv(states[0])
    requires forall i :: 0 <= i < |steps| ==> Smooth(steps[i]) && Follows(states, steps, i)
    requires |steps| >= Distance(states[0])
    ensures Matching(states[|steps|]) && Inv(states[|steps|])
    ensures states[|steps|].desiredRunning == states[0].desiredRunning
  {
    if steps != [] {
      assert Follows(states, steps, 0);
      var c := states[0];
      InvStep(c, steps[0]);
      if Matching(c) {
        SmoothStepsStay(c, steps[0]);
      } else {
        SmoothStepsApproach(c, steps[0]);
      }
      var states', steps' := states[1..], steps[1..];
      forall i | 0 <= i < |steps'| ensures Smooth(steps'[i]) && Follows(states', steps', i) {
        assert Follows(states, steps, i + 1);
      }
      SmoothRunConverges(states', steps');
    }
  }

  /** A start on its way: from a phase that is not Running, towards Running, with the number of
    * clients that is still wanted, and complete by the time Running is to be recorded. */
  ghost predicate Starting(c: Cluster) {
    && c.desiredRunning
    && match c.pass
       case Resting => c.phase == Running ==> Served(c)
       case ToPending => true
       case ToDeploy(want) => want == c.headlessClients
       case ToMatchClients(want) => want == c.headlessClients && c.replicas == Some(1)
       case ToRecord(phase) => phase == Running && Served(c)
       case _ => false
  }

  /** One replica and exactly the clients the spec asks for. */
  ghost predicate Served(c: Cluster) {
    c.replicas == Some(1) && c.clients == FirstIndices(c.headlessClients)
  }

  /** A start from rest in any other phase than Running, in a smooth run that is long enough, ends
    * with the server up and exactly the headless clients its spec asks for. */
  lemma {:induction false} SmoothStartServes(states: seq<Cluster>, steps: seq<Step>)
    requires |states| == |steps| + 1 && Inv(states[0])
    requires forall i :: 0 <= i < |steps| ==> Smooth(steps[i]) && Follows(states, steps, i)
    requires |steps| >= Distance(states[0])
    requires states[0].pass == Resting && states[0].phase != Running && states[0].desiredRunning
    ensures Matching(states[|steps|]) && Served(states[|steps|])
  {
    SmoothRunConverges(states, steps);
    StartingHolds(states, steps, |steps|);
  }

  lemma {:induction false} StartingHolds(states: seq<Cluster>, steps: seq<Step>, k: nat)
    requires |states| == |steps| + 1 && Starting(states[0]) && k <= |steps|
    requires forall i :: 0 <= i < |steps| ==> Smooth(steps[i]) && Follows(states, steps, i)
    ensures Starting(states[k])
  {
    if k > 0 {
      StartingHolds(states, steps, k - 1);
      assert Follows(states, steps, k - 1);
    }
  }

  /** A run of passes whose calls all succeed, long enough to settle. */
  ghost predicate Settles(states: seq<Cluster>, steps: seq<Step>) {
    && |states| == |steps| + 1 && |steps| >= Distance(states[0])
    && forall i :: 0 <= i < |steps| ==> Smooth(steps[i]) && Follows(states, steps, i)
  }

  lemma {:induction false} SmoothKeepsSpec(states: seq<Cluster>, steps: seq<Step>, k: nat)
    requires |states| == |steps| + 1 && k <= |steps|
    requires forall i :: 0 <= i < |steps| ==> Smooth(steps[i]) && Follows(states, steps, i)
    ensures states[k].headlessClients == states[0].headlessClients && states[k].desiredRunning == states[0].desiredRunning
  {
    if k > 0 {
      SmoothKeepsSpec(states, steps, k - 1);
      assert Smooth(steps[k - 1]) && Follows(states, steps, k - 1);
    }
  }

  /** A gateway stop of any rested server, once settled, has taken it down with all its clients. */
  lemma {:induction false} StopTakesEffect(c: Cluster, states: seq<Cluster>, steps: seq<Step>)
    requires Inv(c) && c.pass == Resting && Settles(states, steps) && states[0] == Next(c, SetDesired(false))
    ensures var d := states[|steps|]; d.phase == Stopped && d.pass == Resting && IsDown(d) && d.clients == {}
  {
    SmoothRunConverges(states, steps);
  }

  /** A gateway start of a stopped server, once settled, has it up with the clients it asks for. */
  lemma {:induction false} StartTakesEffect(c: Cluster, states: seq<Cluster>, steps: seq<Step>)
    requires Inv(c) && c.pass == Resting && c.phase == Stopped
    requires Settles(states, steps) && states[0] == Next(c, SetDesired(true))
    ensures var d := states[|steps|];
            d.phase == Running && d.replicas == Some(1) && d.clients == FirstIndices(c.headlessClients)
  {
    SmoothStartServes(states, steps);
    SmoothKeepsSpec(states, steps, |steps|);
  }

  /** An edit of the number of headless clients followed by an update of a running server, once
    * settled, has it up, deployed again, with exactly the new number. */
  lemma {:induction false} UpdateTakesEffect(c: Cluster, count: nat, states: seq<Cluster>, steps: seq<Step>)
    requires Inv(c) && c.pass == Resting && c.phase == Running && c.desiredRunning
    requires Settles(states, steps) && states[0] == Next(Next(c, EditClients(count)), SetPending)
    ensures var d := states[|steps|];
            d.phase == Running && d.replicas == Some(1) && d.clients == FirstIndices(count) && Deploy in steps
  {
    InvStep(c, EditClients(count));
    InvStep(Next(c, EditClients(count)), SetPending);
    SmoothStartServes(states, steps);
    SmoothKeepsSpec(states, steps, |steps|);
    DeployedOnTheWay(states, steps);
  }

  /** An update of a server that is not to run does not start it. */
  lemma {:induction false} UpdateDoesNotStart(c: Cluster, states: seq<Cluster>, steps: seq<Step>)
    requires Inv(c) && c.pass == Resting && !c.desiredRunning
    requires Settles(states, steps) && states[0] == Next(c, SetPending)
    ensures var d := states[|steps|]; d.phase == Stopped && IsDown(d) && d.clients == {} && Deploy !in steps
  {
    InvStep(c, SetPending);
    SmoothRunConverges(states, steps);
    forall k | 0 <= k < |steps| ensures steps[k] != Deploy {
      NothingDeployed(states, steps, k);
      assert Follows(states, steps, k);
    }
  }

  lemma {:induction false} NothingDeployed(states: seq<Cluster>, steps: seq<Step>, k: nat)
    requires |states| == |steps| + 1 && k <= |steps| && !states[0].desiredRunning && states[0].pass == Resting
    requires forall i :: 0 <= i < |steps| ==> Smooth(steps[i]) && Follows(states, steps, i)
    ensures !states[k].desiredRunning && !states[k].pass.ToDeploy?
  {
    if k > 0 {
      NothingDeployed(states, steps, k - 1);
      assert Smooth(steps[k - 1]) && Follows(states, steps, k - 1);
    }
  }

  /** Provisioning can fail at any point of it; the failure is recorded, and changes nothing else. */
  lemma FailureIsRecorded(c: Cluster)
    requires c.pass.ToDeploy? || c.pass.ToMatchClients?
    ensures Enabled(c, ProvisionFails) && Enabled(Next(c, ProvisionFails), RecordOutcome)
    ensures Next(Next(c, ProvisionFails), RecordOutcome) == c.(phase := Failed, pass := Resting)
  {
  }

  /** Any other call can fail too, and then nothing is recorded. */
  lemma BreakRecordsNothing(c: Cluster)
    requires c.pass != Resting
    ensures Enabled(c, Break) && Next(c, Break).(wounded := c.wounded) == c.(pass := Resting)
  {
  }

  /** In every run the Deployment exists if and only if one has been applied: a stop never creates
    * or deletes one. */
  lemma {:induction false} DeployedIff(states: seq<Cluster>, steps: seq<Step>, k: nat)
    requires IsRun(states, steps) && k <= |steps|
    ensures states[k].replicas.Some? <==> Deploy in steps[..k]
  {
    if k > 0 {
      DeployedIff(states, steps, k - 1);
      assert Follows(states, steps, k - 1);
      assert steps[..k] == steps[..k - 1] + [steps[k - 1]];
    }
  }

  /** The passes through which phase Pending has to go on its way to Running without a Deploy. */
  predicate NotYetDeployed(c: Cluster) {
    c.desiredRunning && c.phase == Pending && (c.pass == Resting || c.pass.ToDeploy?)
  }

  lemma {:induction false} DeployedOnTheWay(states: seq<Cluster>, steps: seq<Step>)
    requires |states| == |steps| + 1 && NotYetDeployed(states[0]) && !NotYetDeployed(states[|steps|])
    requires forall i :: 0 <= i < |steps| ==> Smooth(steps[i]) && Follows(states, steps, i)
    ensures Deploy in steps
  {
    if steps != [] {
      assert Smooth(steps[0]) && Follows(states, steps, 0);
      if steps[0] != Deploy {
        var states', steps' := states[1..], steps[1..];
        forall i | 0 <= i < |steps'| ensures Smooth(steps'[i]) && Follows(states', steps', i) {
          assert Smooth(steps[i + 1]) && Follows(states, steps, i + 1);
        }
        DeployedOnTheWay(states', steps');
      }
    }
  }

  // ---------------------------------------------------------------------------------------
  // What a pass does goes back to what it read

  /** The pass under way is one that what was read at `c`, with these gates, calls for. */
  predicate CalledFor(pass: Pass, c: Cluster, gatesOpen: bool) {
    match pass
    case Resting => true
    case ToPending => c.desiredRunning && (c.phase == Stopped || c.phase == Failed)
    case ToScaleDown => !c.desiredRunning && c.phase != Stopped
    case ToDeleteClients => !c.desiredRunning && c.phase != Stopped
    case ToRecordStopped => !c.desiredRunning && c.phase != Stopped
    case ToDeploy(want) => c.desiredRunning && c.phase == Pending && gatesOpen && want == c.headlessClients
    case ToMatchClients(want) => c.desiredRunning && c.phase == Pending && gatesOpen && want == c.headlessClients
    case ToRecord(_) => c.desiredRunning && c.phase == Pending && gatesOpen
  }

  /** Step `j` is the last Observe before state `k`. */
  ghost predicate LastRead(steps: seq<Step>, k: nat, j: nat)
    requires k <= |steps|
  {
    j < k && steps[j].Observe? && forall i :: j < i < k ==> !steps[i].Observe?
  }

  /** In every run, a pass under way is called for by the object, and the sync gates, as they were
    * when it began, whatever has been written since. */
  lemma {:induction false} PassFollowsItsRead(states: seq<Cluster>, steps: seq<Step>, k: nat) returns (j: nat)
    requires IsRun(states, steps) && k <= |steps| && states[k].pass != Resting
    ensures LastRead(steps, k, j) && CalledFor(states[k].pass, states[j], steps[j].gatesOpen)
  {
    assert Follows(states, steps, k - 1);
    if steps[k - 1].Observe? {
      j := k - 1;
    } else {
      j := PassFollowsItsRead(states, steps, k - 1);
    }
  }

  /** So in every run nothing is deployed unless the pass began with the sync gates open. */
  lemma {:induction false} DeployNeedsOpenGates(states: seq<Cluster>, steps: seq<Step>, k: nat) returns (j: nat)
    requires IsRun(states, steps) && k < |steps| && steps[k].Deploy?
    ensures LastRead(steps, k, j) && steps[j] == Observe(true)
    ensures states[j].phase == Pending && states[j].desiredRunning
  {
    assert Follows(states, steps, k);
    j := PassFollowsItsRead(states, steps, k);
  }

  /** While the gates are closed a server that is to start waits as it is. */
  lemma ClosedGatesWait(c: Cluster)
    requires c.pass == Resting && c.phase == Pending && c.desiredRunning
    ensures Enabled(c, Observe(false)) && Next(c, Observe(false)) == c
  {
  }

  // ---------------------------------------------------------------------------------------
  // Re-pending during a pass

  /** Neither another reset nor the start of another pass. */
  predicate Meanwhile(step: Step) {
    !step.SetPending? && !step.Observe?
  }

  ghost predicate IsMeanwhile(states: seq<Cluster>, steps: seq<Step>) {
    |states| == |steps| + 1 && forall i :: 0 <= i < |steps| ==> Meanwhile(steps[i]) && Follows(states, steps, i)
  }

  /** The pass under way will not record an outcome of its own. */
  predicate WillNotOverwrite(pass: Pass) {
    pass == Resting || pass == ToPending
  }

  lemma MeanwhileTail(states: seq<Cluster>, steps: seq<Step>)
    requires IsMeanwhile(states, steps) && steps != []
    ensures Follows(states, steps, 0) && Meanwhile(steps[0]) && IsMeanwhile(states[1..], steps[1..])
    ensures Break in steps <==> steps[0] == Break || Break in steps[1..]
  {
    assert Meanwhile(steps[0]) && Follows(states, steps, 0);
    forall i | 0 <= i < |steps[1..]| ensures Meanwhile(steps[1..][i]) && Follows(states[1..], steps[1..], i) {
      assert Meanwhile(steps[i + 1]) && Follows(states, steps, i + 1);
    }
    assert steps == [steps[0]] + steps[1..];
  }

  /** Between passes nothing meanwhile touches the phase, and nothing is there to break off. */
  lemma {:induction false} RestKeepsPhase(states: seq<Cluster>, steps: seq<Step>)
    requires IsMeanwhile(states, steps) && states[0].pass == Resting
    ensures states[|steps|].phase == states[0].phase && Break !in steps
  {
    if steps != [] {
      MeanwhileTail(states, steps);
      RestKeepsPhase(states[1..], steps[1..]);
    }
  }

  /** When the gateway resets the phase while a pass is under way, then once that pass is over,
    * whatever fails in it and whatever else is written meanwhile, the reset has survived if and
    * only if the pass was not already provisioning or stopping, or broke off. */
  lemma {:induction false} RependingSurvivesIff(states: seq<Cluster>, steps: seq<Step>)
    requires IsMeanwhile(states, steps) && Inv(states[0]) && states[0].phase == Pending
    requires states[|steps|].pass == Resting
    ensures states[|steps|].phase == Pending <==> WillNotOverwrite(states[0].pass) || Break in steps
  {
    if steps != [] {
      MeanwhileTail(states, steps);
      InvStep(states[0], steps[0]);
      if states[1].phase == Pending {
        RependingSurvivesIff(states[1..], steps[1..]);
      }
      if states[1].pass == Resting {
        RestKeepsPhase(states[1..], steps[1..]);
      }
    }
  }

  /** So an update can be lost: its reset lands after the pass has read the object, and the pass
    * records Running over it. */
  lemma {:induction false} RependingIsLost(c: Cluster) returns (states: seq<Cluster>, steps: seq<Step>)
    requires c.desiredRunning && c.phase == Pending && c.pass == Resting && c.headlessClients == 0 && c.clients == {}
    ensures |states| == |steps| + 1 && states[0] == c && forall i :: 0 <= i < |steps| ==> Follows(states, steps, i)
    ensures SetPending in steps && states[|steps|] == c.(phase := Running, replicas := Some(1), wounded := false)
  {
    var c1 := Next(c, Observe(true));
    var c2 := Next(c1, SetPending);
    var c3 := Next(c2, Deploy);
    assert c3.clients == FirstIndices(c3.pass.want);
    var c4 := Next(c3, ClientsMatch);
    var c5 := Next(c4, RecordOutcome);
    states := [c, c1, c2, c3, c4, c5];
    steps := [Observe(true), SetPending, Deploy, ClientsMatch, RecordOutcome];
    assert steps[1] == SetPending;
  }

  // ---------------------------------------------------------------------------------------
  // Where Running is stuck

  /** A server that is to run, recorded as running, and scaled to zero is left so by every
    * pass: the Running arm does nothing until the gateway resets the phase. */
  lemma {:induction false} WoundedIsStuck(c: Cluster, gatesOpen: bool)
    requires c.desiredRunning && c.phase == Running && c.pass == Resting
    ensures Enabled(c, Observe(gatesOpen)) && Next(c, Observe(gatesOpen)) == c
  {
  }

  /** Such a state is reached from any running server: a stop breaks off after scaling down,
    * and the start that follows writes desired_state but fails before resetting the phase. */
  lemma {:induction false} StuckIsReachable(c: Cluster) returns (states: seq<Cluster>, steps: seq<Step>)
    requires c.desiredRunning && c.phase == Running && c.pass == Resting && c.replicas == Some(1)
    ensures |states| == |steps| + 1 && states[0] == c && forall i :: 0 <= i < |steps| ==> Follows(states, steps, i)
    ensures var d := states[|steps|];
            d.desiredRunning && d.phase == Running && d.pass == Resting && d.replicas == Some(0)
  {
    var c1 := Next(c, SetDesired(false));
    var c2 := Next(c1, Observe(true));
    var c3 := Next(c2, ScaleDown);
    var c4 := Next(c3, Break);
    var c5 := Next(c4, SetDesired(true));
    states := [c, c1, c2, c3, c4, c5];
    steps := [SetDesired(false), Observe(true), ScaleDown, Break, SetDesired(true)];
  }
}
