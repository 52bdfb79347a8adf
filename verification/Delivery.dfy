/** Delivering a completed run to GitHub: one durable record, the workers that act on it, and
    the reconciliation of attempts whose outcome is unknown, under every interleaving. */
module Delivery {
  import opened Wrappers

  // ---- The durable record and its guarded writes ------------------------------------------

  datatype DeliveryState = NotReady | Ready | Pushing | CreatingPr | Published | Failed | Interrupted

  type OperationId = nat
  type PullRequest = nat
  type Sha = string

  datatype Record = Record(
    state: DeliveryState,
    operation: Option<OperationId>,
    pullRequest: Option<PullRequest>,
    recoveryRequired: bool,
    pushedHead: Option<Sha>)

  const INITIAL := Record(NotReady, None, None, false, None)

  predicate IsActive(s: DeliveryState) {
    s == Pushing || s == CreatingPr
  }

  predicate IsIdle(s: DeliveryState) {
    s == NotReady || s == Ready || s == Failed
  }

  /** The guard of `claim_delivery`. */
  predicate Claimable(r: Record) {
    IsIdle(r.state) && r.pullRequest == None
  }

  function ClaimDelivery(r: Record, op: OperationId): Record {
    if Claimable(r) then Record(Pushing, Some(op), None, false, None) else r
  }

  function MarkFailedIfIdle(r: Record): Record {
    if Claimable(r) then r.(state := Failed, recoveryRequired := false) else r
  }

  /** The guard of `set_delivery_if_operation`. */
  predicate Owns(op: OperationId, r: Record) {
    r.operation == Some(op) && IsActive(r.state)
  }

  function SetIfOperation(r: Record, delivery: Record, op: OperationId): Record {
    if Owns(op, r) then delivery.(operation := r.operation) else r
  }

  function DemoteInterrupted(r: Record): Record {
    if IsActive(r.state) then r.(state := Interrupted, recoveryRequired := true) else r
  }

  // ---- The world ---------------------------------------------------------------------------

  /** GitHub as the run sees it: whether its head branch was pushed, and the pull requests
      that exist for that branch. */
  datatype Remote = Remote(branchPushed: bool, pullRequests: set<PullRequest>)

  /** How far the worker of one claimed operation has come; `local` is its copy of the record. */
  datatype Worker =
    | Starting
    | PushingBranch(local: Record)
    | RecordingPush(local: Record)
    | CreatingPullRequest(local: Record)
    | RecordingPullRequest(local: Record, created: PullRequest)
    | RecordingFailure(local: Record, uncertain: bool)
    | Panicked
    | RecordingPanic(local: Record)

  datatype Reconciliation =
    | Inspecting(local: Record)
    | Deciding(local: Record, candidates: set<PullRequest>)

  datatype World = World(
    record: Record,
    remote: Remote,
    workers: map<OperationId, Worker>,
    reconciliations: map<nat, Reconciliation>,
    nextOperation: OperationId)

  const START := World(INITIAL, Remote(false, {}), map[], map[], 0)

  /** One atomic step: a database statement, a call to GitHub, or the loss of a thread or of
      the process. Parameters are what the outside decides. */
  datatype Action =
    | Claim(spawned: bool)
    | FailBeforeClaim
    | CheckOwnership(op: OperationId)
    | PushSucceeds(op: OperationId)
    | PushFails(op: OperationId, uncertain: bool, pushed: bool)
    | RecordPush(op: OperationId)
    | CreateSucceeds(op: OperationId, pr: PullRequest)
    | CreateFails(op: OperationId, uncertain: bool, created: set<PullRequest>)
    | RecordPullRequest(op: OperationId, integrationHead: Option<Sha>)
    | RecordFailure(op: OperationId)
    | Panic(op: OperationId, effect: Remote)
    | GiveUp(op: OperationId, effect: Remote)
    | InspectPanic(op: OperationId)
    | RecordPanic(op: OperationId)
    | Restart(effect: Remote)
    | StartReconciliation(id: nat)
    | ListPullRequests(id: nat)
    | AbandonReconciliation(id: nat)
    | Reconcile(id: nat, pushConfirmed: bool, integrationHead: Option<Sha>)

  /** What a call that was under way when its thread was lost may have done. */
  predicate PossibleEffect(worker: Worker, before: Remote, after: Remote) {
    || after == before
    || (worker.PushingBranch? && after == before.(branchPushed := true))
    || (worker.CreatingPullRequest? && before.pullRequests == {} && |after.pullRequests| == 1
        && after.branchPushed == before.branchPushed)
  }

  /** When the step can be taken. `singleFlight` is the runtime's rule that a run is
      reconciled by one caller at a time. */
  predicate Enabled(a: Action, w: World, singleFlight: bool) {
    match a
    case Claim(_) => true
    case FailBeforeClaim => true
    case CheckOwnership(op) => op in w.workers && w.workers[op].Starting?
    case PushSucceeds(op) => op in w.workers && w.workers[op].PushingBranch?
    case PushFails(op, uncertain, pushed) =>
      op in w.workers && w.workers[op].PushingBranch? && (pushed ==> uncertain)
    case RecordPush(op) => op in w.workers && w.workers[op].RecordingPush?
    case CreateSucceeds(op, pr) =>
      op in w.workers && w.workers[op].CreatingPullRequest?
      && (w.remote.pullRequests != {} ==> pr in w.remote.pullRequests)
    case CreateFails(op, uncertain, created) =>
      op in w.workers && w.workers[op].CreatingPullRequest?
      && (created != {} ==> uncertain && |created| == 1 && w.remote.pullRequests == {})
    case RecordPullRequest(op, _) => op in w.workers && w.workers[op].RecordingPullRequest?
    case RecordFailure(op) => op in w.workers && w.workers[op].RecordingFailure?
    case Panic(op, effect) =>
      op in w.workers && !w.workers[op].Panicked? && !w.workers[op].RecordingPanic?
      && PossibleEffect(w.workers[op], w.remote, effect)
    case GiveUp(op, effect) => op in w.workers && PossibleEffect(w.workers[op], w.remote, effect)
    case InspectPanic(op) => op in w.workers && w.workers[op].Panicked?
    case RecordPanic(op) => op in w.workers && w.workers[op].RecordingPanic?
    case Restart(effect) =>
      effect == w.remote || exists op :: op in w.workers && PossibleEffect(w.workers[op], w.remote, effect)
    case StartReconciliation(id) =>
      id !in w.reconciliations && w.record.state == Interrupted && (singleFlight ==> w.reconciliations == map[])
    case ListPullRequests(id) => id in w.reconciliations && w.reconciliations[id].Inspecting?
    case AbandonReconciliation(id) => id in w.reconciliations
    case Reconcile(id, pushConfirmed, _) =>
      id in w.reconciliations && w.reconciliations[id].Deciding?
      && |w.reconciliations[id].candidates| <= 1 && (pushConfirmed ==> w.remote.branchPushed)
  }

  function Advance(w: World, op: OperationId, worker: Worker): World {
    w.(workers := w.workers[op := worker])
  }

  function Finish(w: World, op: OperationId): World {
    w.(workers := w.workers - {op})
  }

  /** The worker writes `delivery` under its operation id and ends. */
  function FinishWith(w: World, op: OperationId, delivery: Record): World {
    Finish(w, op).(record := SetIfOperation(w.record, delivery, op))
  }

  ghost function Apply(a: Action, w: World): World
    requires Enabled(a, w, false)
  {
    match a
    case Claim(spawned) =>
      var op := w.nextOperation;
      if Claimable(w.record) then
        w.(record := ClaimDelivery(w.record, op), nextOperation := op + 1,
           workers := if spawned then w.workers[op := Starting] else w.workers)
      else w.(nextOperation := op + 1)
    case FailBeforeClaim => w.(record := MarkFailedIfIdle(w.record))
    case CheckOwnership(op) =>
      if w.record.operation == Some(op) then Advance(w, op, PushingBranch(w.record)) else Finish(w, op)
    case PushSucceeds(op) =>
      Advance(w, op, RecordingPush(w.workers[op].local)).(remote := w.remote.(branchPushed := true))
    case PushFails(op, uncertain, pushed) =>
      Advance(w, op, RecordingFailure(w.workers[op].local, uncertain))
        .(remote := w.remote.(branchPushed := w.remote.branchPushed || pushed))
    case RecordPush(op) =>
      var delivery := w.workers[op].local.(state := CreatingPr);
      if Owns(op, w.record) then
        Advance(w, op, CreatingPullRequest(delivery)).(record := SetIfOperation(w.record, delivery, op))
      else Finish(w, op)
    case CreateSucceeds(op, pr) =>
      Advance(w, op, RecordingPullRequest(w.workers[op].local, pr))
        .(remote := w.remote.(pullRequests := w.remote.pullRequests + {pr}))
    case CreateFails(op, uncertain, created) =>
      Advance(w, op, RecordingFailure(w.workers[op].local, uncertain))
        .(remote := w.remote.(pullRequests := w.remote.pullRequests + created))
    case RecordPullRequest(op, head) =>
      var local := w.workers[op].local;
      FinishWith(w, op, local.(pullRequest := Some(w.workers[op].created), pushedHead := head,
                               state := Published, recoveryRequired := false))
    case RecordFailure(op) =>
      var uncertain := w.workers[op].uncertain;
      FinishWith(w, op, w.workers[op].local.(state := if uncertain then Interrupted else Failed,
                                             recoveryRequired := uncertain))
    case Panic(op, effect) => Advance(w, op, Panicked).(remote := effect)
    case GiveUp(op, effect) => Finish(w, op).(remote := effect)
    case InspectPanic(op) =>
      if Owns(op, w.record) then Advance(w, op, RecordingPanic(w.record)) else Finish(w, op)
    case RecordPanic(op) =>
      FinishWith(w, op, w.workers[op].local.(state := Interrupted, recoveryRequired := true))
    case Restart(effect) =>
      World(DemoteInterrupted(w.record), effect, map[], map[], w.nextOperation)
    case StartReconciliation(id) =>
      w.(reconciliations := w.reconciliations[id := Inspecting(w.record)])
    case ListPullRequests(id) =>
      w.(reconciliations :=
           w.reconciliations[id := Deciding(w.reconciliations[id].local, w.remote.pullRequests)])
    case AbandonReconciliation(id) => w.(reconciliations := w.reconciliations - {id})
    case Reconcile(id, pushConfirmed, head) =>
      var local, candidates := w.reconciliations[id].local, w.reconciliations[id].candidates;
      w.(reconciliations := w.reconciliations - {id},
         record :=
           if candidates == {} then local.(state := Failed, recoveryRequired := false)
           else
             local.(pullRequest := Some(TheOne(candidates)), state := Published, recoveryRequired := false,
                    pushedHead := if pushConfirmed then head else local.pushedHead))
  }

  ghost function TheOne(s: set<PullRequest>): PullRequest
    requires s != {}
  {
    var x :| x in s; x
  }

  // ---- What every step keeps -----------------------------------------------------------------

  /** What a worker's progress says about the record it owns and about GitHub. */
  predicate WorkerFits(worker: Worker, r: Record, remote: Remote) {
    match worker
    case Starting => remote.pullRequests == {}
    case PushingBranch(local) => remote.pullRequests == {} && Unpublished(local)
    case RecordingPush(local) => remote.pullRequests == {} && remote.branchPushed && Unpublished(local)
    case CreatingPullRequest(local) => remote.pullRequests == {} && remote.branchPushed && Unpublished(local)
    case RecordingPullRequest(_, created) => remote.pullRequests == {created} && remote.branchPushed
    case RecordingFailure(local, uncertain) =>
      Unpublished(local) && (!uncertain ==> remote.pullRequests == {})
    case Panicked => true
    case RecordingPanic(local) => Unpublished(local)
  }

  predicate Unpublished(local: Record) {
    local.pullRequest == None && !local.recoveryRequired
  }

  predicate RecordFits(r: Record, remote: Remote) {
    && |remote.pullRequests| <= 1 && (remote.pullRequests != {} ==> remote.branchPushed)
    && (r.recoveryRequired <==> r.state == Interrupted)
    && (r.pullRequest.Some? <==> r.state == Published)
    && (r.state == Published ==> remote.pullRequests == {r.pullRequest.value})
    && (IsIdle(r.state) ==> remote.pullRequests == {})
  }

  predicate ReconciliationFits(rec: Reconciliation, w: World) {
    && w.record.state == Interrupted && rec.local == w.record
    && (rec.Deciding? ==> rec.candidates == w.remote.pullRequests)
  }

  predicate Inv(w: World) {
    && RecordFits(w.record, w.remote)
    && (w.record.operation.Some? ==> w.record.operation.value < w.nextOperation)
    && (forall op :: op in w.workers ==>
          Owns(op, w.record) && WorkerFits(w.workers[op], w.record, w.remote))
    && (forall id :: id in w.reconciliations ==> ReconciliationFits(w.reconciliations[id], w))
    && (forall id, id' :: id in w.reconciliations && id' in w.reconciliations ==> id == id')
  }

  lemma EffectFits(worker: Worker, r: Record, before: Remote, after: Remote)
    requires RecordFits(r, before) && IsActive(r.state) && WorkerFits(worker, r, before)
    requires PossibleEffect(worker, before, after)
    ensures RecordFits(r, after)
  {
  }

  lemma SingletonOf(s: set<PullRequest>, x: PullRequest)
    requires |s| <= 1 && x in s
    ensures s == {x}
  {
    assert |s - {x}| == |s| - 1;
    assert s == (s - {x}) + {x};
  }

  lemma StepKeepsInv(a: Action, w: World)
    requires Inv(w) && Enabled(a, w, true)
    ensures Enabled(a, w, false) && Inv(Apply(a, w))
  {
    hide Inv, Apply;
    match a
    case Claim(_) => RecordStepKeepsInv(a, w);
    case FailBeforeClaim => RecordStepKeepsInv(a, w);
    case Restart(_) => RecordStepKeepsInv(a, w);
    case CheckOwnership(op) => CallStepKeepsInv(a, w, op);
    case PushSucceeds(op) => CallStepKeepsInv(a, w, op);
    case PushFails(op, _, _) => CallStepKeepsInv(a, w, op);
    case CreateSucceeds(op, _) => CallStepKeepsInv(a, w, op);
    case CreateFails(op, _, _) => CallStepKeepsInv(a, w, op);
    case Panic(op, _) => CallStepKeepsInv(a, w, op);
    case GiveUp(op, _) => CallStepKeepsInv(a, w, op);
    case InspectPanic(op) => CallStepKeepsInv(a, w, op);
    case RecordPush(op) => WriteStepKeepsInv(a, w, op);
    case RecordPullRequest(op, _) => WriteStepKeepsInv(a, w, op);
    case RecordFailure(op) => WriteStepKeepsInv(a, w, op);
    case RecordPanic(op) => WriteStepKeepsInv(a, w, op);
    case StartReconciliation(id) => ReconciliationStepKeepsInv(a, w, id);
    case ListPullRequests(id) => ReconciliationStepKeepsInv(a, w, id);
    case AbandonReconciliation(id) => ReconciliationStepKeepsInv(a, w, id);
    case Reconcile(id, _, _) => ReconciliationStepKeepsInv(a, w, id);
  }

  /** Steps that may start or end all work. */
  lemma RecordStepKeepsInv(a: Action, w: World)
    requires Inv(w) && Enabled(a, w, true) && (a.Claim? || a.FailBeforeClaim? || a.Restart?)
    ensures Enabled(a, w, false) && Inv(Apply(a, w))
  {
    if a.Restart? && a.effect != w.remote {
      var op :| op in w.workers && PossibleEffect(w.workers[op], w.remote, a.effect);
      EffectFits(w.workers[op], w.record, w.remote, a.effect);
    }
  }

  /** Steps in which a worker calls GitHub or is lost; the record stays as it is. */
  lemma CallStepKeepsInv(a: Action, w: World, op: OperationId)
    requires Inv(w) && Enabled(a, w, true) && op in w.workers
    requires a == CheckOwnership(op) || a == PushSucceeds(op) || (a.PushFails? && a.op == op)
             || (a.CreateSucceeds? && a.op == op) || (a.CreateFails? && a.op == op)
             || (a.Panic? && a.op == op) || (a.GiveUp? && a.op == op) || a == InspectPanic(op)
    ensures Enabled(a, w, false) && Inv(Apply(a, w))
  {
    OnlyWorker(w, op);
    if a.Panic? || a.GiveUp? {
      EffectFits(w.workers[op], w.record, w.remote, a.effect);
    } else if a.CreateSucceeds? {
      assert w.remote.pullRequests + {a.pr} == {a.pr};
    }
  }

  /** Steps in which the worker writes the record under its operation id. */
  lemma WriteStepKeepsInv(a: Action, w: World, op: OperationId)
    requires Inv(w) && Enabled(a, w, true) && op in w.workers
    requires a == RecordPush(op) || (a.RecordPullRequest? && a.op == op)
             || a == RecordFailure(op) || a == RecordPanic(op)
    ensures Enabled(a, w, false) && Inv(Apply(a, w))
  {
    OnlyWorker(w, op);
  }

  lemma ReconciliationStepKeepsInv(a: Action, w: World, id: nat)
    requires Inv(w) && Enabled(a, w, true)
    requires a == StartReconciliation(id) || a == ListPullRequests(id) || a == AbandonReconciliation(id)
             || (a.Reconcile? && a.id == id)
    ensures Enabled(a, w, false) && Inv(Apply(a, w))
  {
    if a.Reconcile? && w.reconciliations[id].candidates != {} {
      SingletonOf(w.reconciliations[id].candidates, TheOne(w.reconciliations[id].candidates));
    }
  }

  lemma OnlyWorker(w: World, op: OperationId)
    requires Inv(w) && op in w.workers
    ensures forall other :: other in w.workers ==> other == op
    ensures w.reconciliations == map[]
  {
    assert w.workers[op] == w.workers[op];
    assert forall id :: id !in w.reconciliations;
  }

  // ---- Whole runs ------------------------------------------------------------------------------

  ghost predicate IsRun(actions: seq<Action>, w: World, singleFlight: bool) {
    actions == []
    || (Enabled(actions[0], w, singleFlight) && Enabled(actions[0], w, false)
        && IsRun(actions[1..], Apply(actions[0], w), singleFlight))
  }

  ghost function Run(actions: seq<Action>, w: World): World
    requires IsRun(actions, w, false)
  {
    if actions == [] then w else Run(actions[1..], Apply(actions[0], w))
  }

  lemma {:induction false} RunKeepsInv(actions: seq<Action>, w: World)
    requires Inv(w) && IsRun(actions, w, true)
    ensures IsRun(actions, w, false) && Inv(Run(actions, w))
  {
    hide Inv, Enabled, Apply;
    if actions != [] {
      StepKeepsInv(actions[0], w);
      RunKeepsInv(actions[1..], Apply(actions[0], w));
    }
  }

  /** In every reachable world, whatever the interleaving of claims, worker steps, lost threads,
      restarts and reconciliations: whenever the record permits a claim, no worker is live and
      no pull request of the run exists; the record says Published exactly when it names the
      one that exists; there is never a second one; and a live worker owns the record, so
      there is at most one. */
  lemma EveryRunIsSafe(actions: seq<Action>)
    requires IsRun(actions, START, true)
    ensures IsRun(actions, START, false)
    ensures var w := Run(actions, START);
            && (Claimable(w.record) ==> w.workers == map[] && w.remote.pullRequests == {})
            && (w.record.state == Published <==> w.record.pullRequest.Some?)
            && (w.record.state == Published ==> w.remote.pullRequests == {w.record.pullRequest.value})
            && |w.remote.pullRequests| <= 1
            && (w.remote.pullRequests != {} ==> w.remote.branchPushed)
            && (forall op :: op in w.workers ==> w.record.operation == Some(op) && IsActive(w.record.state))
            && |w.workers| <= 1
  {
    hide Enabled, Apply, Run, IsRun;
    RunKeepsInv(actions, START);
    var w := Run(actions, START);
    if op :| op in w.workers {
      assert w.workers.Keys == {op};
      assert |w.workers.Keys| == 1;
    } else {
      assert w.workers == map[];
    }
  }

  /** Publication is final: no continuation changes the record or adds a pull request. */
  lemma {:induction false} PublishedIsAbsorbing(actions: seq<Action>, w: World)
    requires Inv(w) && w.record.state == Published && IsRun(actions, w, true)
    ensures IsRun(actions, w, false)
    ensures Run(actions, w).record == w.record
    ensures Run(actions, w).remote.pullRequests == {w.record.pullRequest.value}
  {
    hide Inv, Enabled, Apply;
    InvMeansPublished(w);
    if actions != [] {
      StepKeepsInv(actions[0], w);
      PublishedStepIdle(actions[0], w);
      PublishedIsAbsorbing(actions[1..], Apply(actions[0], w));
    }
  }

  lemma InvMeansPublished(w: World)
    requires Inv(w) && w.record.state == Published
    ensures w.record.pullRequest.Some? && w.remote.pullRequests == {w.record.pullRequest.value}
  {
  }

  lemma PublishedStepIdle(a: Action, w: World)
    requires Inv(w) && w.record.state == Published && Enabled(a, w, true) && Enabled(a, w, false)
    ensures Apply(a, w).record == w.record
  {
  }

  /** A pull request, once it exists, stays the only one for ever: no retry duplicates it. */
  lemma {:induction false} PullRequestIsNeverDuplicated(actions: seq<Action>, w: World, pr: PullRequest)
    requires Inv(w) && pr in w.remote.pullRequests && IsRun(actions, w, true)
    ensures IsRun(actions, w, false)
    ensures Run(actions, w).remote.pullRequests == {pr}
  {
    hide Inv, Enabled, Apply;
    if actions == [] {
      assert |w.remote.pullRequests| <= 1 by { InvMeansFew(w); }
      SingletonOf(w.remote.pullRequests, pr);
    } else {
      StepKeepsInv(actions[0], w);
      StepKeepsPullRequests(actions[0], w);
      PullRequestIsNeverDuplicated(actions[1..], Apply(actions[0], w), pr);
    }
  }

  lemma InvMeansFew(w: World)
    requires Inv(w)
    ensures |w.remote.pullRequests| <= 1
  {
  }

  lemma StepKeepsPullRequests(a: Action, w: World)
    requires Inv(w) && Enabled(a, w, true) && Enabled(a, w, false)
    ensures w.remote.pullRequests <= Apply(a, w).remote.pullRequests
  {
  }

  /** A branch, once pushed, stays pushed, and no claim uses an operation a second time. */
  lemma {:induction false} RunsOnlyAdd(actions: seq<Action>, w: World)
    requires IsRun(actions, w, true) && IsRun(actions, w, false)
    ensures w.remote.branchPushed ==> Run(actions, w).remote.branchPushed
    ensures w.nextOperation <= Run(actions, w).nextOperation
    ensures actions != [] && actions[0].Claim? ==> w.nextOperation < Run(actions, w).nextOperation
  {
    hide Enabled, Apply;
    if actions != [] {
      StepOnlyAdds(actions[0], w);
      assert IsRun(actions[1..], Apply(actions[0], w), false) by { RunGoesOn(actions, w); }
      RunsOnlyAdd(actions[1..], Apply(actions[0], w));
    }
  }

  lemma RunGoesOn(actions: seq<Action>, w: World)
    requires IsRun(actions, w, false) && actions != []
    ensures IsRun(actions[1..], Apply(actions[0], w), false)
  {}

  lemma StepOnlyAdds(a: Action, w: World)
    requires Enabled(a, w, true) && Enabled(a, w, false)
    ensures w.remote.branchPushed ==> Apply(a, w).remote.branchPushed
    ensures w.nextOperation <= Apply(a, w).nextOperation
    ensures a.Claim? ==> w.nextOperation < Apply(a, w).nextOperation
  {
    if a.Restart? && a.effect != w.remote {
      var op :| op in w.workers && PossibleEffect(w.workers[op], w.remote, a.effect);
    }
  }

  // ---- Stale workers -------------------------------------------------------------------------

  /** The step is one of the worker of `op`. */
  predicate IsBy(a: Action, op: OperationId) {
    match a
    case CheckOwnership(o) => o == op
    case PushSucceeds(o) => o == op
    case PushFails(o, _, _) => o == op
    case RecordPush(o) => o == op
    case CreateSucceeds(o, _) => o == op
    case CreateFails(o, _, _) => o == op
    case RecordPullRequest(o, _) => o == op
    case RecordFailure(o) => o == op
    case Panic(o, _) => o == op
    case GiveUp(o, _) => o == op
    case InspectPanic(o) => o == op
    case RecordPanic(o) => o == op
    case _ => false
  }

  /** No step of a worker writes the record unless its operation owns it, in any world at all. */
  lemma StaleStepWritesNothing(a: Action, w: World, op: OperationId)
    requires Enabled(a, w, false) && IsBy(a, op) && !Owns(op, w.record)
    ensures Apply(a, w).record == w.record
  {
  }

  /** Whatever a worker whose operation does not own the record still does, in whatever world, the
      record stays as it is. */
  lemma {:induction false} StaleWorkerWritesNothing(actions: seq<Action>, w: World, op: OperationId)
    requires IsRun(actions, w, false) && !Owns(op, w.record)
    requires forall a :: a in actions ==> IsBy(a, op)
    ensures Run(actions, w).record == w.record
  {
    hide Enabled, Apply, Owns, IsBy;
    if actions != [] {
      StaleStepWritesNothing(actions[0], w, op);
      StaleWorkerWritesNothing(actions[1..], Apply(actions[0], w), op);
    }
  }

  /** A worker's write leaves the ownership of every other operation as it was, and never hands the
      record on: the owner after it owned the record before. */
  lemma WritesKeepOwnership(a: Action, w: World, op: OperationId, other: OperationId)
    requires Enabled(a, w, false) && IsBy(a, op)
    ensures Apply(a, w).record.operation == w.record.operation
    ensures other != op ==> (Owns(other, Apply(a, w).record) <==> Owns(other, w.record))
  {
  }

  lemma {:induction false} RunThen(actions: seq<Action>, a: Action, w: World, singleFlight: bool)
    requires IsRun(actions, w, singleFlight) && IsRun(actions, w, false)
    requires Enabled(a, Run(actions, w), singleFlight) && Enabled(a, Run(actions, w), false)
    ensures IsRun(actions + [a], w, singleFlight) && IsRun(actions + [a], w, false)
    ensures Run(actions + [a], w) == Apply(a, Run(actions, w))
  {
    hide Enabled, Apply;
    if actions == [] {
      assert (actions + [a])[1..] == [];
    } else {
      assert (actions + [a])[1..] == actions[1..] + [a];
      RunThen(actions[1..], a, Apply(actions[0], w), singleFlight);
    }
  }

  // ---- Restarts, and getting on from them ------------------------------------------------------

  /** After a restart no delivery is under way. One that was has become uncertain and keeps its
      operation and what it pushed; every other record is as it was. The run can be delivered
      again, is published, or can be reconciled at once. */
  lemma RestartLeavesNothingActive(actions: seq<Action>, effect: Remote)
    requires IsRun(actions, START, true) && IsRun(actions, START, false)
    requires Enabled(Restart(effect), Run(actions, START), true)
    ensures IsRun(actions + [Restart(effect)], START, true) && IsRun(actions + [Restart(effect)], START, false)
    ensures var (before, after) := (Run(actions, START).record, Run(actions + [Restart(effect)], START));
      && after.record.state != Pushing && after.record.state != CreatingPr
      && (if before.state == Pushing || before.state == CreatingPr
          then after.record.state == Interrupted && after.record.recoveryRequired
               && after.record.operation == before.operation && after.record.pushedHead == before.pushedHead
               && after.record.pullRequest == before.pullRequest
          else after.record == before)
      && after.remote == effect && after.workers == map[]
      && (Claimable(after.record) || after.record.state == Published || Enabled(StartReconciliation(0), after, true))
  {
    hide IsRun, Run, Enabled, Apply, Inv;
    var w := Run(actions, START);
    StartFits();
    RunKeepsInv(actions, START);
    RestartSettles(w, effect);
    RunThen(actions, Restart(effect), START, true);
  }

  lemma RestartSettles(w: World, effect: Remote)
    requires Inv(w) && Enabled(Restart(effect), w, true)
    ensures Enabled(Restart(effect), w, false)
    ensures var after := Apply(Restart(effect), w);
      && after.record.state != Pushing && after.record.state != CreatingPr
      && (if w.record.state == Pushing || w.record.state == CreatingPr
          then after.record.state == Interrupted && after.record.recoveryRequired
               && after.record.operation == w.record.operation && after.record.pushedHead == w.record.pushedHead
               && after.record.pullRequest == w.record.pullRequest
          else after.record == w.record)
      && after.remote == effect && after.workers == map[] && after.reconciliations == map[]
      && (Claimable(after.record) || after.record.state == Published || Enabled(StartReconciliation(0), after, true))
  {}

  /** From every reachable world, whatever has been lost in it, the run can still be published. */
  lemma EveryDeliveryCanStillBePublished(actions: seq<Action>)
    requires IsRun(actions, START, true) && IsRun(actions, START, false)
    ensures exists w :: Reaches(Run(actions, START), w, true) && w.record.state == Published
  {
    hide IsRun, Run, Inv, Reaches, Enabled, Apply;
    var from := Run(actions, START);
    StartFits();
    RunKeepsInv(actions, START);
    ReachesItself(from, true);
    RestartIsPossible(from);
    RestartSettles(from, from.remote);
    var w := Onward(from, from, Restart(from.remote));
    if w.record.state != Published {
      if !Claimable(w.record) {
        w := Reconciled(from, w);
      }
      if w.record.state != Published {
        w := Delivered(from, w);
      }
    }
  }

  lemma StartFits()
    ensures Inv(START)
  {}

  lemma RestartIsPossible(w: World)
    ensures Enabled(Restart(w.remote), w, true)
  {}

  lemma Onward(from: World, w: World, a: Action) returns (next: World)
    requires Reaches(from, w, true) && Inv(w) && Enabled(a, w, true)
    ensures Enabled(a, w, false) && next == Apply(a, w) && Reaches(from, next, true) && Inv(next)
  {
    hide Reaches, Inv, Enabled, Apply;
    StepKeepsInv(a, w);
    next := Apply(a, w);
    ReachesNext(from, w, a, true);
  }

  /** An interrupted record is reconciled into one that is published or can be claimed. */
  lemma Reconciled(from: World, w: World) returns (next: World)
    requires Reaches(from, w, true) && Inv(w) && Enabled(StartReconciliation(0), w, true) && w.reconciliations == map[]
    requires w.workers == map[]
    ensures Reaches(from, next, true) && Inv(next) && next.workers == map[]
    ensures next.record.state == Published || Claimable(next.record)
  {
    hide Reaches, Inv;
    var w1 := Onward(from, w, StartReconciliation(0));
    var w2 := Onward(from, w1, ListPullRequests(0));
    InvMeansFew(w2);
    assert w2.reconciliations[0] == Deciding(w.record, w.remote.pullRequests);
    next := Onward(from, w2, Reconcile(0, false, None));
    InterruptedHasNone(w);
  }

  lemma InterruptedHasNone(w: World)
    requires Inv(w) && w.record.state == Interrupted
    ensures w.record.pullRequest == None
  {}

  /** A claimable record is delivered when every call succeeds. */
  lemma Delivered(from: World, w: World) returns (next: World)
    requires Reaches(from, w, true) && Inv(w) && Claimable(w.record) && w.workers == map[]
    ensures Reaches(from, next, true) && next.record.state == Published
  {
    hide Reaches, Inv;
    var op := w.nextOperation;
    var w1 := Onward(from, w, Claim(true));
    var w2 := Onward(from, w1, CheckOwnership(op));
    var w3 := Onward(from, w2, PushSucceeds(op));
    var w4 := Onward(from, w3, RecordPush(op));
    ClaimableHasNone(w);
    var w5 := Onward(from, w4, CreateSucceeds(op, 1));
    next := Onward(from, w5, RecordPullRequest(op, None));
  }

  lemma ClaimableHasNone(w: World)
    requires Inv(w) && Claimable(w.record)
    ensures w.remote.pullRequests == {}
  {}

  /** A worker whose thread panics leaves its record uncertain, whatever it was doing. */
  lemma PanicIsRecorded(w: World, op: OperationId, effect: Remote)
    requires Inv(w) && Enabled(Panic(op, effect), w, true)
    ensures var actions := [Panic(op, effect), InspectPanic(op), RecordPanic(op)];
      && IsRun(actions, w, true) && IsRun(actions, w, false)
      && var after := Run(actions, w);
         after.record == w.record.(state := Interrupted, recoveryRequired := true) && op !in after.workers
         && after.remote == effect
  {
    hide IsRun, Run;
    var w1 := Apply(Panic(op, effect), w);
    var w2 := Apply(InspectPanic(op), w1);
    RunOfThree(w, Panic(op, effect), InspectPanic(op), RecordPanic(op));
  }

  lemma RunOfThree(w: World, a: Action, b: Action, c: Action)
    requires Enabled(a, w, true) && Enabled(a, w, false)
    requires Enabled(b, Apply(a, w), true) && Enabled(b, Apply(a, w), false)
    requires Enabled(c, Apply(b, Apply(a, w)), true) && Enabled(c, Apply(b, Apply(a, w)), false)
    ensures IsRun([a, b, c], w, true) && IsRun([a, b, c], w, false)
    ensures Run([a, b, c], w) == Apply(c, Apply(b, Apply(a, w)))
  {
    hide Enabled, Apply;
    assert [a, b, c][1..] == [b, c] && [b, c][1..] == [c] && [c][1..] == [];
    var w1, w2 := Apply(a, w), Apply(b, Apply(a, w));
    assert IsRun([], Apply(c, w2), true) && IsRun([], Apply(c, w2), false);
    assert IsRun([c], w2, true) && IsRun([c], w2, false) && Run([c], w2) == Apply(c, w2);
    assert IsRun([b, c], w1, true) && IsRun([b, c], w1, false) && Run([b, c], w1) == Run([c], w2);
  }

  // ---- The single-flight rule is needed ----------------------------------------------------------

  ghost predicate Reaches(from: World, w: World, singleFlight: bool) {
    exists actions :: IsRun(actions, from, singleFlight) && IsRun(actions, from, false) && Run(actions, from) == w
  }

  lemma ReachesItself(w: World, singleFlight: bool)
    ensures Reaches(w, w, singleFlight)
  {
    assert IsRun([], w, singleFlight) && IsRun([], w, false) && Run([], w) == w;
  }

  lemma ReachesNext(from: World, w: World, a: Action, singleFlight: bool)
    requires Reaches(from, w, singleFlight) && Enabled(a, w, singleFlight) && Enabled(a, w, false)
    ensures Reaches(from, Apply(a, w), singleFlight)
  {
    hide Enabled, Apply, Run, IsRun;
    var actions :| IsRun(actions, from, singleFlight) && IsRun(actions, from, false) && Run(actions, from) == w;
    RunThen(actions, a, from, singleFlight);
    assert Run(actions + [a], from) == Apply(a, w);
  }

  /** The first attempt's push times out before it did anything. */
  lemma InterruptedIsReachable(w: World)
    requires w == World(Record(Interrupted, Some(0), None, true, None), Remote(false, {}), map[], map[], 1)
    ensures Reaches(START, w, false)
  {
    hide Reaches;
    ReachesItself(START, false);
    var w0 := Step(START, Claim(true));
    var w1 := Step(w0, CheckOwnership(0));
    var w2 := Step(w1, PushFails(0, true, false));
    var w3 := Step(w2, RecordFailure(0));
    assert w3 == w;
  }

  /** Were two reconciliations of one run allowed at once, the slower one's unguarded write
      could reopen the record under a live worker. */
  lemma TwoReconciliationsReopenALiveRecord()
    ensures exists w :: Reaches(START, w, false) && Claimable(w.record) && w.workers != map[]
  {
    hide Reaches;
    var w := World(Record(Interrupted, Some(0), None, true, None), Remote(false, {}), map[], map[], 1);
    InterruptedIsReachable(w);
    var w0 := Step(w, StartReconciliation(0));
    var w1 := Step(w0, StartReconciliation(1));
    var w2 := Step(w1, ListPullRequests(0));
    var w3 := Step(w2, ListPullRequests(1));
    var w4 := Step(w3, Reconcile(0, false, None));
    var w5 := Step(w4, Claim(true));
    var w6 := Step(w5, Reconcile(1, false, None));
    assert Claimable(w6.record) && 1 in w6.workers;
  }

  lemma Step(w: World, a: Action) returns (next: World)
    requires Reaches(START, w, false) && Enabled(a, w, false)
    ensures next == Apply(a, w) && Reaches(START, next, false)
  {
    next := Apply(a, w);
    ReachesNext(START, w, a, false);
  }

  // ---- The delivery calls themselves ---------------------------------------------------------------

  /** How a call to GitHub ended: done, definitely without effect, or unknown. */
  datatype Outcome = Done | Rejected | Unknown(tookEffect: bool)

  /** What a call that was not done leaves in the record. */
  predicate Failing(r: Record, outcome: Outcome) {
    r.state == (if outcome.Unknown? then Interrupted else Failed) && (r.recoveryRequired <==> outcome.Unknown?)
  }

  datatype Claiming = Claimed | AlreadyPublished | NotDeliverable | NoBaseBranch | Conflict

  class DeliveryService {
    var record: Record
    var remote: Remote

    constructor ()
      ensures record == INITIAL && remote == Remote(false, {})
    {
      record, remote := INITIAL, Remote(false, {});
    }

    method SetDeliveryIfOperation(delivery: Record, op: OperationId) returns (changed: bool)
      modifies `record
      ensures record == SetIfOperation(old(record), delivery, op) && changed == Owns(op, old(record))
      ensures forall other :: other != op ==> (Owns(other, record) <==> Owns(other, old(record)))
      ensures if changed then record == delivery.(operation := old(record).operation) else record == old(record)
    {
      changed := record.operation == Some(op) && IsActive(record.state);
      if changed {
        record := record.(state := delivery.state, pushedHead := delivery.pushedHead,
                          pullRequest := delivery.pullRequest, recoveryRequired := delivery.recoveryRequired);
      }
    }

    /** The guarded claim of the database. */
    method ClaimDeliveryRow(op: OperationId) returns (claimed: bool)
      modifies `record
      ensures record == ClaimDelivery(old(record), op) && claimed == Claimable(old(record))
      ensures claimed ==> forall other :: Owns(other, record) <==> other == op
      ensures claimed ==> forall other :: !Owns(other, old(record))
      ensures claimed ==> record.state == Pushing && record.operation == Some(op) && record.pullRequest == None
                          && record.pushedHead == None && !record.recoveryRequired
      ensures !claimed ==> record == old(record)
    {
      claimed := (record.state == NotReady || record.state == Ready || record.state == Failed)
                 && record.pullRequest == None;
      if claimed {
        record := record.(state := Pushing, operation := Some(op), recoveryRequired := false, pushedHead := None);
      }
    }

    method MarkDeliveryFailedIfIdle()
      modifies `record
      ensures record == MarkFailedIfIdle(old(record))
      ensures forall op :: Owns(op, record) <==> Owns(op, old(record))
      ensures record.pullRequest == old(record).pullRequest && (Claimable(record) <==> Claimable(old(record)))
    {
      if IsIdle(record.state) && record.pullRequest == None {
        record := record.(state := Failed, recoveryRequired := false);
      }
    }

    /** One undisturbed request to deliver, up to the start of its worker, is a run of the
        protocol. It claims exactly when the run can be delivered, the base branch exists and
        the record permits it; a missing base branch fails an idle record; otherwise the
        record is as it was. Nothing outside is touched. */
    method BeginDelivery(eligible: bool, baseAvailable: bool, next: OperationId) returns (claim: Claiming)
      modifies `record
      ensures claim == Claimed <==> eligible && baseAvailable && Claimable(old(record))
      ensures claim == Claimed ==> record == ClaimDelivery(old(record), next) && Owns(next, record)
      ensures claim == AlreadyPublished <==> old(record).pullRequest.Some? || old(record).state == Published
      ensures claim == NotDeliverable ==> !eligible
      ensures claim == NoBaseBranch ==> !baseAvailable && record == MarkFailedIfIdle(old(record))
      ensures claim == Conflict ==> !IsIdle(old(record).state)
      ensures claim != Claimed && claim != NoBaseBranch ==> record == old(record)
      ensures Reaches(World(old(record), remote, map[], map[], next),
                      World(record, remote, if claim == Claimed then map[next := Starting] else map[], map[],
                            if claim == Claimed || claim == Conflict then next + 1 else next), true)
    {
      hide Reaches;
      ghost var from := World(record, remote, map[], map[], next);
      ReachesItself(from, true);
      if record.pullRequest.Some? || record.state == Published { return AlreadyPublished; }
      if !eligible { return NotDeliverable; }
      if !baseAvailable {
        ghost var w := Take(from, from, FailBeforeClaim);
        MarkDeliveryFailedIfIdle();
        return NoBaseBranch;
      }
      ghost var w := Take(from, from, Action.Claim(true));
      var claimed := ClaimDeliveryRow(next);
      if claimed { return Claimed; }
      claim := Conflict;
    }

    method FinishFailedDelivery(op: OperationId, delivery: Record, uncertain: bool)
      modifies `record
      ensures record == SetIfOperation(old(record), delivery.(state := if uncertain then Interrupted else Failed,
                                                              recoveryRequired := uncertain), op)
    {
      var failed := delivery.(state := if uncertain then Interrupted else Failed, recoveryRequired := uncertain);
      var _ := SetDeliveryIfOperation(failed, op);
    }

    method MarkDeliveryInterrupted(op: OperationId)
      modifies `record
      ensures record == if Owns(op, old(record))
                        then old(record).(state := Interrupted, recoveryRequired := true) else old(record)
    {
      var delivery := record;
      if delivery.operation == Some(op) && IsActive(delivery.state) {
        delivery := delivery.(state := Interrupted, recoveryRequired := true);
        var _ := SetDeliveryIfOperation(delivery, op);
      }
    }

    /** One undisturbed execution of a claimed operation is a run of the protocol that ends
        with the worker gone; it publishes exactly when both calls are done while the operation
        owns the record. */
    method ExecuteDelivery(op: OperationId, push: Outcome, create: Outcome, number: PullRequest,
                           integrationHead: Option<Sha>, ghost next: OperationId) returns (published: bool)
      modifies this
      ensures Reaches(World(old(record), old(remote), map[op := Starting], map[], next),
                      World(record, remote, map[], map[], next), true)
      ensures published <==> Owns(op, old(record)) && push.Done? && create.Done?
      ensures published ==> record.state == Published && record.pullRequest.Some?
                            && record.pullRequest.value in remote.pullRequests && remote.branchPushed
      ensures published ==> record.pushedHead == integrationHead && record.operation == Some(op)
                            && (old(remote).pullRequests == {} ==> record.pullRequest == Some(number))
      ensures Owns(op, old(record)) && push != Done ==> Failing(record, push)
      ensures Owns(op, old(record)) && push == Done && create != Done ==> Failing(record, create) && remote.branchPushed
      ensures !Owns(op, old(record)) ==> record == old(record)
    {
      hide Reaches;
      ghost var from := World(record, remote, map[op := Starting], map[], next);
      ReachesItself(from, true);
      var delivery := record;
      ghost var w := Take(from, from, CheckOwnership(op));
      if delivery.operation != Some(op) {
        assert w.workers == map[];
        return false;
      }
      if push != Done {
        var took := push.Unknown? && push.tookEffect;
        remote := remote.(branchPushed := remote.branchPushed || took);
        w := Take(from, w, PushFails(op, push.Unknown?, took));
        w := Take(from, w, RecordFailure(op));
        FinishFailedDelivery(op, delivery, push.Unknown?);
        assert w.workers == map[];
        return false;
      }
      remote := remote.(branchPushed := true);
      w := Take(from, w, PushSucceeds(op));
      delivery := delivery.(state := CreatingPr);
      w := Take(from, w, RecordPush(op));
      var changed := SetDeliveryIfOperation(delivery, op);
      if !changed {
        assert w.workers == map[];
        return false;
      }
      published := CreateAndPublish(op, delivery, create, number, integrationHead, from, w);
    }

    method CreateAndPublish(op: OperationId, delivery: Record, create: Outcome, number: PullRequest,
                            integrationHead: Option<Sha>, ghost from: World, ghost before: World)
      returns (published: bool)
      requires Owns(op, record) && Reaches(from, before, true)
      requires before == World(record, remote, map[op := CreatingPullRequest(delivery)], map[], before.nextOperation)
      requires remote.branchPushed
      modifies this
      ensures Reaches(from, World(record, remote, map[], map[], before.nextOperation), true)
      ensures published <==> create.Done?
      ensures published ==> record.state == Published && record.pullRequest.Some?
                            && record.pullRequest.value in remote.pullRequests && remote.branchPushed
      ensures published ==> record.pushedHead == integrationHead && record.operation == Some(op)
                            && (old(remote).pullRequests == {} ==> record.pullRequest == Some(number))
      ensures create != Done ==> Failing(record, create) && remote.branchPushed
    {
      hide Reaches;
      ghost var w := before;
      if create != Done {
        var created: set<PullRequest> :=
          if create.Unknown? && create.tookEffect && remote.pullRequests == {} then {number} else {};
        remote := remote.(pullRequests := remote.pullRequests + created);
        w := Take(from, w, CreateFails(op, create.Unknown?, created));
        w := Take(from, w, RecordFailure(op));
        FinishFailedDelivery(op, delivery, create.Unknown?);
        assert w.workers == map[];
        return false;
      }
      var pr := number;
      if remote.pullRequests != {} {
        pr :| pr in remote.pullRequests;
      }
      remote := remote.(pullRequests := remote.pullRequests + {pr});
      w := Take(from, w, CreateSucceeds(op, pr));
      w := Take(from, w, RecordPullRequest(op, integrationHead));
      var done := delivery.(pullRequest := Some(pr), pushedHead := integrationHead,
                            state := Published, recoveryRequired := false);
      published := SetDeliveryIfOperation(done, op);
      assert w.workers == map[];
    }

    /** An undisturbed reconciliation of an interrupted delivery, `None` standing for an
        unreachable GitHub, is a run of the protocol; with exactly one pull request it
        publishes that one, with none it makes the record claimable, and otherwise it changes
        nothing. GitHub itself is only read. */
    method ReconcileDelivery(candidates: Option<set<PullRequest>>, pushConfirmed: bool, integrationHead: Option<Sha>,
                             ghost next: OperationId)
      modifies `record
      requires candidates.Some? ==> candidates.value == remote.pullRequests
      requires pushConfirmed ==> remote.branchPushed
      ensures Reaches(World(old(record), remote, map[], map[], next), World(record, remote, map[], map[], next), true)
      ensures old(record).state != Interrupted || candidates.None? || |candidates.value| > 1 ==> record == old(record)
      ensures old(record).state == Interrupted && candidates == Some({}) ==>
                record == old(record).(state := Failed, recoveryRequired := false)
      ensures old(record).state == Interrupted && candidates.Some? && |candidates.value| == 1 ==>
                record.state == Published && !record.recoveryRequired
                && record.pullRequest.Some? && {record.pullRequest.value} == candidates.value
                && record.pushedHead == (if pushConfirmed then integrationHead else old(record).pushedHead)
                && record.operation == old(record).operation
    {
      hide Reaches;
      ghost var from := World(record, remote, map[], map[], next);
      ReachesItself(from, true);
      if record.state != Interrupted || candidates.None? || |candidates.value| > 1 {
        return;
      }
      var reconciled := record;
      ghost var w := Take(from, from, StartReconciliation(0));
      w := Take(from, w, ListPullRequests(0));
      w := Take(from, w, Reconcile(0, pushConfirmed, integrationHead));
      assert w.reconciliations == map[];
      if candidates.value != {} {
        var pr :| pr in candidates.value;
        SingletonOf(candidates.value, pr);
        reconciled := reconciled.(pullRequest := Some(pr), state := Published, recoveryRequired := false);
        if pushConfirmed {
          reconciled := reconciled.(pushedHead := integrationHead);
        }
        record := reconciled;
        return;
      }
      record := reconciled.(state := Failed, recoveryRequired := false);
    }
  }

  lemma Take(from: World, w: World, a: Action) returns (next: World)
    requires Reaches(from, w, true) && Enabled(a, w, true) && Enabled(a, w, false)
    ensures next == Apply(a, w) && Reaches(from, next, true)
  {
    next := Apply(a, w);
    ReachesNext(from, w, a, true);
  }

  // ---- What the dashboard is told ------------------------------------------------------------------

  datatype RunStatus = RunCompleted | RunOther

  datatype Blocker = NotCompleted | NoIntegrationHead | NoLocalBranch | BranchDrift

  /** `delivery_eligibility`: every reason against delivering, in the order they are found. */
  method DeliveryEligibility(status: RunStatus, integrationHead: Option<Sha>, localHead: Option<Sha>)
    returns (ready: bool, blockers: seq<Blocker>)
    ensures ready <==> blockers == []
    ensures ready <==> status == RunCompleted && integrationHead.Some? && localHead == integrationHead
    ensures NotCompleted in blockers <==> status != RunCompleted
    ensures NoIntegrationHead in blockers <==> integrationHead.None?
    ensures NoLocalBranch in blockers <==> integrationHead.Some? && localHead.None?
    ensures BranchDrift in blockers <==> integrationHead.Some? && localHead.Some? && localHead != integrationHead
  {
    blockers := [];
    if status != RunCompleted {
      blockers := blockers + [NotCompleted];
    }
    if integrationHead.None? {
      blockers := blockers + [NoIntegrationHead];
      return false, blockers;
    }
    if localHead.None? {
      blockers := blockers + [NoLocalBranch];
    } else if localHead.value != integrationHead.value {
      blockers := blockers + [BranchDrift];
    }
    ready := blockers == [];
  }

  function EffectiveState(r: Record, eligible: bool): DeliveryState {
    if r.pullRequest.Some? || r.state == Published then Published
    else if IsActive(r.state) || r.state == Failed || r.state == Interrupted then r.state
    else if eligible then Ready else NotReady
  }

  /** `retry_safe` of the delivery report. */
  predicate RetrySafe(r: Record, eligible: bool) {
    r.pullRequest == None && r.state != Published && !IsActive(r.state)
    && !r.recoveryRequired && r.state != Interrupted && eligible
  }

  /** In every reachable world the report tells the truth: a retry is called safe exactly when
      the run is eligible and the claim would succeed, and the state shown is Published,
      active, failed or uncertain exactly when the record is. */
  lemma ReportIsTruthful(actions: seq<Action>, eligible: bool)
    requires IsRun(actions, START, true)
    ensures IsRun(actions, START, false)
    ensures var r := Run(actions, START).record;
            && (RetrySafe(r, eligible) <==> eligible && ClaimDelivery(r, Run(actions, START).nextOperation) != r)
            && (EffectiveState(r, eligible) == Published <==> r.state == Published)
            && (!IsIdle(r.state) || r.state == Failed ==> EffectiveState(r, eligible) == r.state)
            && (EffectiveState(r, eligible) == Ready ==> RetrySafe(r, eligible))
  {
    hide Enabled, Apply, Run, IsRun;
    RunKeepsInv(actions, START);
  }
}
