/**
 The shared worker pool of src/resource_worker.rs as a labelled step system.

 Every section that holds the state mutex is one atomic step. `wait` releases the
 mutex and sleeps in that same step, `notify_one` and the `notify_all` of a dropped
 pool are steps of their own after the unlock, and a sleeping worker may wake for no
 reason. A worker that wakes goes back to the mutex, so the loop around `wait` and a
 fresh turn of the worker loop are the same step.
 */
module WorkerPool {
  import opened Common
  import opened Sums

  datatype Priority = Background | Normal | Critical {
    function Rank(): nat {
      match this case Background => 0 case Normal => 1 case Critical => 2
    }
  }

  datatype Outcome = Complete | Cancelled | Panicked

  /** A queued job; `scope` names the cancellation scope its token watches. */
  datatype Job = Job(priority: Priority, id: nat, scope: nat)

  datatype Ordering = Less | Equal | Greater

  function CompareNat(a: nat, b: nat): Ordering {
    if a < b then Less else if a == b then Equal else Greater
  }

  /** The heap order: by priority, then the smaller identity first. */
  function Compare(a: Job, b: Job): Ordering {
    match CompareNat(a.priority.Rank(), b.priority.Rank())
    case Equal => CompareNat(b.id, a.id)
    case other => other
  }

  /** With identities distinct, any two jobs are strictly ordered, one way round, and the order is transitive. */
  lemma CompareIsTotal(a: Job, b: Job, c: Job)
    ensures Compare(a, b) == Equal <==> a.id == b.id && a.priority == b.priority
    ensures Compare(a, b) == Greater <==> Compare(b, a) == Less
    ensures Compare(a, b) != Greater && Compare(b, c) != Greater ==> Compare(a, c) != Greater
  {
  }

  /** `jobs[k]` is a job that no other queued job outranks. */
  predicate IsTop(jobs: seq<Job>, k: nat) {
    k < |jobs| && forall i :: 0 <= i < |jobs| ==> Compare(jobs[i], jobs[k]) != Greater
  }

  /**
   The job to start next, told without the heap order: critical if any is, else normal if
   any is, and of its priority the one submitted first.
   */
  ghost predicate MostUrgent(jobs: seq<Job>, job: Job) {
    && job in jobs
    && ((exists j :: j in jobs && j.priority == Critical) ==> job.priority == Critical)
    && ((exists j :: j in jobs && j.priority == Normal) ==> job.priority != Background)
    && (forall j :: j in jobs && j.priority == job.priority ==> job.id <= j.id)
  }

  /** The top of the heap is the most urgent job, and with distinct jobs nothing else is. */
  lemma TopIffMostUrgent(jobs: seq<Job>, k: nat)
    requires k < |jobs|
    ensures IsTop(jobs, k) <==> MostUrgent(jobs, jobs[k])
  {
    if MostUrgent(jobs, jobs[k]) {
      forall i | 0 <= i < |jobs| ensures Compare(jobs[i], jobs[k]) != Greater {
        assert jobs[i] in jobs;
      }
    }
  }

  /** What the mutex protects. */
  datatype Locked = Locked(jobs: seq<Job>, nextId: nat, started: bool, stopped: bool)

  /** Where a worker thread is. `Ready` is about to take the mutex. */
  datatype Phase =
    | Ready
    | Asleep
    | Starting(job: Job)
    | Executing(job: Job)
    | Returned(job: Job)
    | Sending(job: Job, outcome: Outcome)
    | Exited

  datatype Delivery = Delivery(id: nat, outcome: Outcome)

  datatype State = State(
    locked: Locked,
    workers: seq<Phase>,
    notifies: nat,            // submitters between unlock and notify_one
    cancelled: set<nat>,      // scopes whose liveness flag is false
    dropped: bool,            // the last handle is gone
    wakeAll: bool,            // the dropping thread has not yet called notify_all
    draining: seq<Job>,       // jobs the dropping thread still has to cancel
    deliveries: seq<Delivery>,// outcomes sent, in order
    starts: seq<Job>)         // jobs popped by workers, in order

  const INIT := State(Locked([], 0, false, false), [], 0, {}, false, false, [], [], [])

  datatype Label =
    | Submit(priority: Priority, scope: nat, spawned: nat)
    | NotifyOne(w: nat)
    | NotifyNobody
    | Spurious(w: nat)
    | Take(w: nat, top: nat)
    | Begin(w: nat)
    | Finish(w: nat, panicked: bool)
    | Judge(w: nat)
    | Send(w: nat)
    | Cancel(scope: nat)
    | DropPool
    | WakeAll
    | Drain(k: nat)

  // ----- the sections that hold the mutex -----

  datatype Submission = Submission(locked: Locked, created: nat, accepted: bool)

  /** `submit_inner` up to its unlock. `spawned` is how many threads the system can create. */
  function SubmitLocked(n: nat, q: Locked, priority: Priority, scope: nat, spawned: nat): Submission {
    if q.stopped then Submission(q, 0, false)
    else if !q.started && spawned < n then Submission(q.(started := true, stopped := true), spawned, false)
    else
      var created := if q.started then 0 else n;
      var r := q.(started := true);
      if q.nextId >= U64_MAX then Submission(r, created, false)
      else Submission(r.(jobs := q.jobs + [Job(priority, q.nextId, scope)], nextId := q.nextId + 1), created, true)
  }

  datatype Turn = Exit | Sleep | Run(job: Job)

  function TurnOf(q: Locked, top: nat): Turn
    requires q.stopped || q.jobs == [] || IsTop(q.jobs, top)
  {
    if q.stopped then Exit else if q.jobs == [] then Sleep else Run(q.jobs[top])
  }

  function Without<T>(xs: seq<T>, k: nat): seq<T>
    requires k < |xs|
  {
    xs[..k] + xs[k + 1..]
  }

  function TakeLocked(q: Locked, top: nat): Locked
    requires q.stopped || q.jobs == [] || IsTop(q.jobs, top)
  {
    if TurnOf(q, top).Run? then q.(jobs := Without(q.jobs, top)) else q
  }

  // ----- the step relation -----

  function NewThreads(created: nat): seq<Phase> { seq(created, _ => Ready) }

  function Awakened(workers: seq<Phase>): seq<Phase> {
    seq(|workers|, i requires 0 <= i < |workers| => if workers[i] == Asleep then Ready else workers[i])
  }

  ghost predicate Enabled(n: nat, s: State, l: Label) {
    match l
    case Submit(_, _, _) => !s.dropped
    case NotifyOne(w) => s.notifies > 0 && w < |s.workers| && s.workers[w] == Asleep
    case NotifyNobody => s.notifies > 0 && Asleep !in s.workers
    case Spurious(w) => w < |s.workers| && s.workers[w] == Asleep
    case Take(w, top) =>
      w < |s.workers| && s.workers[w] == Ready && (s.locked.stopped || s.locked.jobs == [] || IsTop(s.locked.jobs, top))
    case Begin(w) => w < |s.workers| && s.workers[w].Starting?
    case Finish(w, _) => w < |s.workers| && s.workers[w].Executing?
    case Judge(w) => w < |s.workers| && s.workers[w].Returned?
    case Send(w) => w < |s.workers| && s.workers[w].Sending?
    case Cancel(_) => true
    case DropPool => !s.dropped && s.notifies == 0
    case WakeAll => s.wakeAll
    case Drain(k) => !s.wakeAll && k < |s.draining|
  }

  ghost function Apply(n: nat, s: State, l: Label): State
    requires Enabled(n, s, l)
  {
    match l
    case Submit(priority, scope, spawned) =>
      var r := SubmitLocked(n, s.locked, priority, scope, spawned);
      var workers := s.workers + NewThreads(r.created);
      if r.accepted then s.(locked := r.locked, workers := workers, notifies := s.notifies + 1)
      else if r.locked.stopped && !s.locked.stopped then s.(locked := r.locked, workers := Awakened(workers))
      else s.(locked := r.locked, workers := workers)
    case NotifyOne(w) => s.(notifies := s.notifies - 1, workers := s.workers[w := Ready])
    case NotifyNobody => s.(notifies := s.notifies - 1)
    case Spurious(w) => s.(workers := s.workers[w := Ready])
    case Take(w, top) =>
      var t := s.(locked := TakeLocked(s.locked, top));
      match TurnOf(s.locked, top) {
        case Exit => t.(workers := s.workers[w := Exited])
        case Sleep => t.(workers := s.workers[w := Asleep])
        case Run(job) => t.(workers := s.workers[w := Starting(job)], starts := s.starts + [job])
      }
    case Begin(w) =>
      var job := s.workers[w].job;
      s.(workers := s.workers[w := if job.scope in s.cancelled then Sending(job, Cancelled) else Executing(job)])
    case Finish(w, panicked) =>
      var job := s.workers[w].job;
      s.(workers := s.workers[w := if panicked then Sending(job, Panicked) else Returned(job)])
    case Judge(w) =>
      var job := s.workers[w].job;
      s.(workers := s.workers[w := Sending(job, if job.scope in s.cancelled then Cancelled else Complete)])
    case Send(w) =>
      s.(workers := s.workers[w := Ready],
         deliveries := s.deliveries + [Delivery(s.workers[w].job.id, s.workers[w].outcome)])
    case Cancel(scope) => s.(cancelled := s.cancelled + {scope})
    case DropPool =>
      s.(dropped := true, wakeAll := true, draining := s.draining + s.locked.jobs,
         locked := s.locked.(stopped := true, jobs := []))
    case WakeAll => s.(wakeAll := false, workers := Awakened(s.workers))
    case Drain(k) =>
      s.(draining := Without(s.draining, k), deliveries := s.deliveries + [Delivery(s.draining[k].id, Cancelled)])
  }

  /** `labels` is a legal run from `s`. */
  ghost predicate Legal(n: nat, s: State, labels: seq<Label>)
    decreases |labels|, 0
  {
    labels == [] ||
    (Legal(n, s, labels[..|labels| - 1]) && Enabled(n, After(n, s, labels[..|labels| - 1]), labels[|labels| - 1]))
  }

  ghost function After(n: nat, s: State, labels: seq<Label>): State
    requires Legal(n, s, labels)
    decreases |labels|, 1
  {
    if labels == [] then s
    else Apply(n, After(n, s, labels[..|labels| - 1]), labels[|labels| - 1])
  }

  // ----- counting -----

  ghost function One(b: bool): nat { if b then 1 else 0 }
  ghost function Holding(id: nat): Phase -> nat {
    (p: Phase) => One((p.Starting? || p.Executing? || p.Returned? || p.Sending?) && p.job.id == id)
  }
  ghost function Named(id: nat): Job -> nat { (j: Job) => One(j.id == id) }
  ghost function Reporting(id: nat): Delivery -> nat { (d: Delivery) => One(d.id == id) }
  ghost function IsReady(): Phase -> nat { (p: Phase) => One(p == Ready) }

  /** How many times the identity occurs among queued, running, draining and delivered jobs. */
  ghost function Copies(s: State, id: nat): nat {
    Sum(Named(id), s.locked.jobs) + Sum(Holding(id), s.workers) +
    Sum(Named(id), s.draining) + Sum(Reporting(id), s.deliveries)
  }

  ghost function ReadyCount(s: State): nat { Sum(IsReady(), s.workers) }

  // ----- the invariant -----

  /** No queued job waits on a sleeping pool with no wake-up on its way. */
  ghost predicate NotStranded(s: State) {
    s.locked.stopped || Asleep !in s.workers || |s.locked.jobs| <= s.notifies + ReadyCount(s)
  }

  /** Every identity handed out is in exactly one place, and no other identity is anywhere. */
  ghost predicate ExactlyOnce(s: State) {
    forall id: nat :: Copies(s, id) == One(id < s.locked.nextId)
  }

  ghost predicate StopIsClean(s: State) {
    && (s.locked.stopped ==> s.locked.jobs == [])
    && (s.locked.stopped && Asleep in s.workers ==> s.wakeAll)
    && (!s.locked.stopped ==> !s.wakeAll && !s.dropped && s.draining == [] && Exited !in s.workers)
    && (s.wakeAll ==> s.locked.stopped)
  }

  ghost predicate ThreadsFit(n: nat, s: State) {
    && |s.workers| <= n
    && (s.locked.started && !s.locked.stopped ==> |s.workers| == n)
    && (!s.locked.started ==> s.workers == [] && s.locked.jobs == [])
  }

  predicate Precedes(a: Job, b: Job) { a.priority == b.priority ==> a.id < b.id }

  /** Started jobs of one priority are in submission order, and precede the queued ones. */
  ghost predicate FirstInFirstOut(s: State) {
    && (forall i, j :: 0 <= i < j < |s.starts| ==> Precedes(s.starts[i], s.starts[j]))
    && (forall i, k :: 0 <= i < |s.starts| && 0 <= k < |s.locked.jobs| ==> Precedes(s.starts[i], s.locked.jobs[k]))
    && (forall i, k :: 0 <= i < k < |s.locked.jobs| ==> s.locked.jobs[i].id != s.locked.jobs[k].id)
    && (forall i :: 0 <= i < |s.starts| ==> s.starts[i].id < s.locked.nextId)
    && (forall k :: 0 <= k < |s.locked.jobs| ==> s.locked.jobs[k].id < s.locked.nextId)
  }

  ghost predicate Inv(n: nat, s: State) {
    NotStranded(s) && ExactlyOnce(s) && StopIsClean(s) && ThreadsFit(n, s) && FirstInFirstOut(s)
  }

  // ----- small facts about worker sequences -----

  lemma {:induction false} AwakenedSum(f: Phase -> nat, workers: seq<Phase>)
    ensures f(Ready) == f(Asleep) ==> Sum(f, Awakened(workers)) == Sum(f, workers)
    ensures Sum(f, Awakened(workers)) <= Sum(f, workers) + f(Ready) * |workers|
  {
    if workers != [] {
      AwakenedSum(f, workers[1..]);
      assert Awakened(workers)[1..] == Awakened(workers[1..]);
      assert f(Ready) * |workers| == f(Ready) + f(Ready) * |workers[1..]|;
    }
  }

  lemma {:induction false} NewWorkersSum(f: Phase -> nat, workers: seq<Phase>, created: nat)
    ensures Sum(f, workers + NewThreads(created)) == Sum(f, workers) + created * f(Ready)
  {
    SumConcat(f, workers, NewThreads(created));
    ReadySum(f, created);
  }

  lemma {:induction false} ReadySum(f: Phase -> nat, created: nat)
    ensures Sum(f, NewThreads(created)) == created * f(Ready)
  {
    if created > 0 {
      assert NewThreads(created)[1..] == NewThreads(created - 1);
      ReadySum(f, created - 1);
    }
  }

  // ----- every step keeps the invariant -----

  lemma SubmitHolding(n: nat, s: State, l: Label, f: Phase -> nat)
    requires l.Submit? && Enabled(n, s, l) && f(Ready) == f(Asleep) == 0
    ensures Sum(f, Apply(n, s, l).workers) == Sum(f, s.workers)
  {
    var r := SubmitLocked(n, s.locked, l.priority, l.scope, l.spawned);
    NewWorkersSum(f, s.workers, r.created);
    AwakenedSum(f, s.workers + NewThreads(r.created));
  }

  lemma SubmitCopies(n: nat, s: State, l: Label, id: nat)
    requires l.Submit? && Enabled(n, s, l)
    ensures var t := Apply(n, s, l);
      Copies(t, id) == Copies(s, id) + One(t.locked.nextId > s.locked.nextId && id == s.locked.nextId)
  {
    var r := SubmitLocked(n, s.locked, l.priority, l.scope, l.spawned);
    SubmitHolding(n, s, l, Holding(id));
    if r.accepted {
      SumAppend(Named(id), s.locked.jobs, Job(l.priority, s.locked.nextId, l.scope));
    }
  }

  lemma TakeCopies(n: nat, s: State, l: Label, id: nat)
    requires l.Take? && Enabled(n, s, l)
    ensures Copies(Apply(n, s, l), id) == Copies(s, id)
  {
    var t := Apply(n, s, l);
    SumUpdate(Holding(id), s.workers, l.w, t.workers[l.w]);
    if TurnOf(s.locked, l.top).Run? {
      SumRemove(Named(id), s.locked.jobs, l.top);
    }
  }

  lemma DeliveryCopies(n: nat, s: State, l: Label, id: nat)
    requires (l.Send? || l.Drain?) && Enabled(n, s, l)
    ensures Copies(Apply(n, s, l), id) == Copies(s, id)
  {
    var t := Apply(n, s, l);
    SumAppend(Reporting(id), s.deliveries, t.deliveries[|s.deliveries|]);
    if l.Send? {
      SumUpdate(Holding(id), s.workers, l.w, Ready);
    } else {
      SumRemove(Named(id), s.draining, l.k);
    }
  }

  lemma WorkerCopies(n: nat, s: State, l: Label, id: nat)
    requires l.NotifyOne? || l.Spurious? || l.Begin? || l.Finish? || l.Judge?
    requires Enabled(n, s, l)
    ensures Copies(Apply(n, s, l), id) == Copies(s, id)
  {
    SumUpdate(Holding(id), s.workers, l.w, Apply(n, s, l).workers[l.w]);
  }

  /** A step moves identities around; only an accepted submission creates one. */
  lemma StepCopies(n: nat, s: State, l: Label, id: nat)
    requires Enabled(n, s, l)
    ensures var t := Apply(n, s, l);
      Copies(t, id) == Copies(s, id) + One(t.locked.nextId > s.locked.nextId && id == s.locked.nextId)
  {
    match l
    case Submit(_, _, _) => SubmitCopies(n, s, l, id);
    case Take(_, _) => TakeCopies(n, s, l, id);
    case Send(_) => DeliveryCopies(n, s, l, id);
    case Drain(_) => DeliveryCopies(n, s, l, id);
    case DropPool => SumConcat(Named(id), s.draining, s.locked.jobs);
    case WakeAll => AwakenedSum(Holding(id), s.workers);
    case NotifyNobody =>
    case Cancel(_) =>
    case _ => WorkerCopies(n, s, l, id);
  }

  lemma StepKeepsExactlyOnce(n: nat, s: State, l: Label)
    requires ExactlyOnce(s) && Enabled(n, s, l)
    ensures ExactlyOnce(Apply(n, s, l))
  {
    var t := Apply(n, s, l);
    assert t.locked.nextId == s.locked.nextId || t.locked.nextId == s.locked.nextId + 1;
    forall id: nat ensures Copies(t, id) == One(id < t.locked.nextId) {
      StepCopies(n, s, l, id);
    }
  }

  /** The labels that change one worker. */
  ghost predicate MovesWorker(l: Label) {
    l.NotifyOne? || l.Spurious? || l.Take? || l.Begin? || l.Finish? || l.Judge? || l.Send?
  }

  lemma WorkerStepKeepsNotStranded(n: nat, s: State, l: Label)
    requires NotStranded(s) && Enabled(n, s, l) && MovesWorker(l)
    ensures NotStranded(Apply(n, s, l))
  {
    var t := Apply(n, s, l);
    assert t.workers == s.workers[l.w := t.workers[l.w]];
    SumUpdate(IsReady(), s.workers, l.w, t.workers[l.w]);
    if !l.Take? {
      assert Asleep in t.workers ==> Asleep in s.workers;
    }
  }

  lemma StepKeepsNotStranded(n: nat, s: State, l: Label)
    requires Inv(n, s) && Enabled(n, s, l)
    ensures NotStranded(Apply(n, s, l))
  {
    if l.Submit? {
      var r := SubmitLocked(n, s.locked, l.priority, l.scope, l.spawned);
      NewWorkersSum(IsReady(), s.workers, r.created);
    } else if MovesWorker(l) {
      WorkerStepKeepsNotStranded(n, s, l);
    }
  }

  lemma SubmitKeepsStopIsClean(n: nat, s: State, l: Label)
    requires Inv(n, s) && l.Submit? && Enabled(n, s, l)
    ensures StopIsClean(Apply(n, s, l))
  {
  }

  lemma WorkerStepKeepsStopIsClean(n: nat, s: State, l: Label)
    requires StopIsClean(s) && MovesWorker(l) && Enabled(n, s, l)
    ensures StopIsClean(Apply(n, s, l))
  {
    var t := Apply(n, s, l);
    assert t.workers == s.workers[l.w := t.workers[l.w]];
    assert t.workers[l.w] == Asleep ==> !s.locked.stopped;
    assert t.workers[l.w] == Exited ==> s.locked.stopped;
  }

  lemma StepKeepsStopIsClean(n: nat, s: State, l: Label)
    requires Inv(n, s) && Enabled(n, s, l)
    ensures StopIsClean(Apply(n, s, l))
  {
    if MovesWorker(l) {
      WorkerStepKeepsStopIsClean(n, s, l);
    } else if l.Submit? {
      SubmitKeepsStopIsClean(n, s, l);
    }
  }

  lemma StepKeepsThreadsFit(n: nat, s: State, l: Label)
    requires Inv(n, s) && Enabled(n, s, l)
    ensures ThreadsFit(n, Apply(n, s, l))
  {
  }

  lemma TakeKeepsFirstInFirstOut(n: nat, s: State, l: Label)
    requires FirstInFirstOut(s) && Enabled(n, s, l) && l.Take? && TurnOf(s.locked, l.top).Run?
    ensures FirstInFirstOut(Apply(n, s, l))
  {
    var t, jobs := Apply(n, s, l), s.locked.jobs;
    forall k | 0 <= k < |t.locked.jobs|
      ensures t.locked.jobs[k] == jobs[if k < l.top then k else k + 1]
      ensures Precedes(jobs[l.top], t.locked.jobs[k])
    {
      var i := if k < l.top then k else k + 1;
      assert Compare(jobs[i], jobs[l.top]) != Greater;
    }
  }

  lemma StepKeepsFirstInFirstOut(n: nat, s: State, l: Label)
    requires FirstInFirstOut(s) && Enabled(n, s, l)
    ensures FirstInFirstOut(Apply(n, s, l))
  {
    var t := Apply(n, s, l);
    if l.Take? && TurnOf(s.locked, l.top).Run? {
      TakeKeepsFirstInFirstOut(n, s, l);
    } else if l.Submit? && t.locked.jobs != s.locked.jobs {
      assert t.locked.jobs == s.locked.jobs + [Job(l.priority, s.locked.nextId, l.scope)];
    } else {
      assert t.starts == s.starts;
      assert t.locked.jobs == s.locked.jobs || t.locked.jobs == [];
    }
  }

  lemma {:induction false} ReachableInv(n: nat, labels: seq<Label>)
    requires Legal(n, INIT, labels)
    ensures Inv(n, After(n, INIT, labels))
  {
    if labels == [] {
      forall id: nat ensures Copies(INIT, id) == One(id < INIT.locked.nextId) {}
    } else {
      var before := labels[..|labels| - 1];
      var s, l := After(n, INIT, before), labels[|labels| - 1];
      ReachableInv(n, before);
      StepKeepsExactlyOnce(n, s, l);
      StepKeepsNotStranded(n, s, l);
      StepKeepsStopIsClean(n, s, l);
      StepKeepsThreadsFit(n, s, l);
      StepKeepsFirstInFirstOut(n, s, l);
    }
  }

  /**
   When a submission is accepted, and what it queues: exactly while the pool is not stopped,
   its threads exist or can be created, and an identity that fits in 64 bits is left.
   */
  lemma SubmissionAcceptedIff(n: nat, q: Locked, priority: Priority, scope: nat, spawned: nat)
    ensures var r := SubmitLocked(n, q, priority, scope, spawned);
      && (r.accepted <==> !q.stopped && (q.started || spawned >= n) && q.nextId < U64_MAX)
      && (r.accepted ==> r.locked.jobs == q.jobs + [Job(priority, q.nextId, scope)] && r.locked.nextId == q.nextId + 1)
      && (!r.accepted ==> r.locked.jobs == q.jobs && r.locked.nextId == q.nextId)
      && (!q.stopped && !q.started && spawned < n <==> r.locked.stopped && !q.stopped)
  {
  }

  /** No identity outgrows its 64 bits. */
  lemma {:induction false} IdentitiesFit(n: nat, labels: seq<Label>)
    requires Legal(n, INIT, labels)
    ensures After(n, INIT, labels).locked.nextId <= U64_MAX
  {
    if labels != [] {
      var before := labels[..|labels| - 1];
      IdentitiesFit(n, before);
      StepKeepsIdentitiesFit(n, After(n, INIT, before), labels[|labels| - 1]);
    }
  }

  lemma StepKeepsIdentitiesFit(n: nat, s: State, l: Label)
    requires Enabled(n, s, l) && s.locked.nextId <= U64_MAX
    ensures Apply(n, s, l).locked.nextId <= U64_MAX
  {
    if l.Submit? {
      SubmissionAcceptedIff(n, s.locked, l.priority, l.scope, l.spawned);
    }
  }

  // ----- nothing is stranded -----

  /**
   While the pool runs and a job is queued, either somebody is on the way to the
   mutex or about to notify, or no worker sleeps and all `n` of them hold a job.
   */
  lemma NoJobStranded(n: nat, labels: seq<Label>)
    requires Legal(n, INIT, labels)
    ensures var s := After(n, INIT, labels);
      && NotStranded(s)
      && (!s.locked.stopped && s.locked.jobs != [] ==>
            || s.notifies > 0
            || Ready in s.workers
            || (|s.workers| == n && forall w :: 0 <= w < n ==> Busy(s.workers[w])))
  {
    var s := After(n, INIT, labels);
    ReachableInv(n, labels);
    if !s.locked.stopped && s.locked.jobs != [] && s.notifies == 0 && Ready !in s.workers {
      if ReadyCount(s) > 0 {
        SumPositive(IsReady(), s.workers);
      }
    }
  }

  ghost predicate Busy(p: Phase) { p.Starting? || p.Executing? || p.Returned? || p.Sending? }

  /** The steps the pool owes: everything but new calls, cancellations and spurious wake-ups. */
  ghost predicate Owed(l: Label) {
    !(l.Submit? || l.Spurious? || l.Cancel? || l.DropPool?)
  }

  ghost function Weight(): Phase -> nat {
    (p: Phase) => match p
      case Ready => 1
      case Asleep => 0
      case Starting(_) => 6
      case Executing(_) => 5
      case Returned(_) => 4
      case Sending(_, _) => 3
      case Exited => 0
  }

  /** Bounds the owed steps that can still happen. */
  ghost function Remaining(s: State): nat {
    6 * |s.locked.jobs| + Sum(Weight(), s.workers) + 2 * s.notifies + |s.draining| +
    (if s.wakeAll then |s.workers| + 1 else 0)
  }

  lemma TakeShrinks(n: nat, s: State, l: Label)
    requires l.Take? && Enabled(n, s, l)
    ensures Remaining(Apply(n, s, l)) < Remaining(s)
  {
    SumUpdate(Weight(), s.workers, l.w, Apply(n, s, l).workers[l.w]);
  }

  lemma WorkerStepShrinks(n: nat, s: State, l: Label)
    requires MovesWorker(l) && !l.Take? && !l.Spurious? && Enabled(n, s, l)
    ensures Remaining(Apply(n, s, l)) < Remaining(s)
  {
    SumUpdate(Weight(), s.workers, l.w, Apply(n, s, l).workers[l.w]);
  }

  lemma OwedStepShrinks(n: nat, s: State, l: Label)
    requires Enabled(n, s, l) && Owed(l)
    ensures Remaining(Apply(n, s, l)) < Remaining(s)
  {
    if l.Take? {
      TakeShrinks(n, s, l);
    } else if MovesWorker(l) {
      WorkerStepShrinks(n, s, l);
    } else if l.WakeAll? {
      AwakenedSum(Weight(), s.workers);
    }
  }

  /** Left to itself the pool stops after a bounded number of steps, whatever their order. */
  lemma {:induction false} OwedRunsAreBounded(n: nat, s: State, labels: seq<Label>)
    requires Legal(n, s, labels) && forall i :: 0 <= i < |labels| ==> Owed(labels[i])
    ensures |labels| + Remaining(After(n, s, labels)) <= Remaining(s)
  {
    if labels != [] {
      var before := labels[..|labels| - 1];
      OwedRunsAreBounded(n, s, before);
      OwedStepShrinks(n, After(n, s, before), labels[|labels| - 1]);
    }
  }

  ghost predicate Quiescent(n: nat, s: State) {
    forall l :: Owed(l) ==> !Enabled(n, s, l)
  }

  lemma {:induction false} TopExists(jobs: seq<Job>)
    requires jobs != []
    ensures exists k: nat :: IsTop(jobs, k)
  {
    var last := |jobs| - 1;
    if last == 0 {
      assert IsTop(jobs, 0);
    } else {
      TopExists(jobs[..last]);
      var k: nat :| IsTop(jobs[..last], k);
      assert forall i :: 0 <= i < last ==> jobs[i] == jobs[..last][i];
      assert IsTop(jobs, if Compare(jobs[last], jobs[k]) == Greater then last else k);
    }
  }

  lemma QuiescentWorkers(n: nat, s: State)
    requires Quiescent(n, s)
    ensures forall w :: 0 <= w < |s.workers| ==> s.workers[w] == Asleep || s.workers[w] == Exited
  {
    forall w | 0 <= w < |s.workers| ensures s.workers[w] == Asleep || s.workers[w] == Exited {
      var k: nat := 0;
      if s.locked.jobs != [] {
        TopExists(s.locked.jobs);
        k :| IsTop(s.locked.jobs, k);
      }
      assert !Enabled(n, s, Begin(w)) && !Enabled(n, s, Finish(w, false)) && !Enabled(n, s, Take(w, k));
      assert !Enabled(n, s, Judge(w)) && !Enabled(n, s, Send(w));
    }
  }

  /**
   Where no owed step is left, every identity handed out has exactly one outcome,
   nothing is queued, and a stopped pool has no thread left.
   */
  lemma QuiescentMeansDelivered(n: nat, s: State)
    requires n > 0 && Inv(n, s) && Quiescent(n, s)
    ensures s.locked.jobs == [] && s.draining == [] && s.notifies == 0
    ensures forall id: nat :: Sum(Reporting(id), s.deliveries) == One(id < s.locked.nextId)
    ensures s.locked.stopped ==> forall w :: 0 <= w < |s.workers| ==> s.workers[w] == Exited
  {
    QuiescentWorkers(n, s);
    assert !Enabled(n, s, WakeAll) && !Enabled(n, s, NotifyNobody) && !Enabled(n, s, Drain(0));
    if s.notifies > 0 {
      var w :| 0 <= w < |s.workers| && s.workers[w] == Asleep;
      assert Enabled(n, s, NotifyOne(w));
    }
    if s.locked.jobs != [] {
      assert s.workers[0] == Asleep;
      assert ReadyCount(s) > 0;
      SumPositive(IsReady(), s.workers);
    }
    forall id: nat ensures Sum(Reporting(id), s.deliveries) == One(id < s.locked.nextId) {
      assert Copies(s, id) == One(id < s.locked.nextId);
      if Sum(Holding(id), s.workers) > 0 {
        SumPositive(Holding(id), s.workers);
      }
    }
  }

  /** The sum that counts an identity's outcomes, read as positions in the delivery order. */
  lemma OneOutcomeEach(s: State, id: nat)
    requires Sum(Reporting(id), s.deliveries) == 1
    ensures exists k :: 0 <= k < |s.deliveries| && s.deliveries[k].id == id &&
              forall j :: 0 <= j < |s.deliveries| && s.deliveries[j].id == id ==> j == k
  {
    SumPositive(Reporting(id), s.deliveries);
    var k :| 0 <= k < |s.deliveries| && Reporting(id)(s.deliveries[k]) > 0;
    forall j | 0 <= j < |s.deliveries| && s.deliveries[j].id == id ensures j == k {
      if j != k {
        SumTwo(Reporting(id), s.deliveries, j, k);
      }
    }
  }

  lemma OneOwedStep(n: nat, s: State, labels: seq<Label>) returns (longer: seq<Label>)
    requires Legal(n, s, labels) && !Quiescent(n, After(n, s, labels))
    ensures |longer| == |labels| + 1 && longer[..|labels|] == labels && Owed(longer[|labels|]) && Legal(n, s, longer)
    ensures Remaining(After(n, s, longer)) < Remaining(After(n, s, labels))
  {
    var t := After(n, s, labels);
    var l :| Owed(l) && Enabled(n, t, l);
    longer := labels + [l];
    assert longer[..|labels|] == labels;
    OwedStepShrinks(n, t, l);
  }

  /** `longer` is the run `labels` followed by owed steps only. */
  ghost predicate OwedAfter(labels: seq<Label>, longer: seq<Label>) {
    labels <= longer && forall i :: |labels| <= i < |longer| ==> Owed(longer[i])
  }

  /** After any run the owed steps alone lead to a state where none is left; `bound` is any number large enough. */
  lemma {:induction false} CanSettle(n: nat, s: State, labels: seq<Label>, bound: nat) returns (longer: seq<Label>)
    requires Legal(n, s, labels) && Remaining(After(n, s, labels)) <= bound
    ensures OwedAfter(labels, longer) && Legal(n, s, longer) && Quiescent(n, After(n, s, longer))
    decreases bound
  {
    longer := labels;
    if !Quiescent(n, After(n, s, labels)) {
      var next := OneOwedStep(n, s, labels);
      longer := CanSettle(n, s, next, bound - 1);
      OwedAfterOne(labels, next, longer);
    }
  }

  lemma OwedAfterOne(labels: seq<Label>, next: seq<Label>, longer: seq<Label>)
    requires |next| == |labels| + 1 && next[..|labels|] == labels && Owed(next[|labels|]) && OwedAfter(next, longer)
    ensures OwedAfter(labels, longer)
  {
    assert longer[|labels|] == next[|labels|];
  }

  /** Once a run has settled, every identity handed out has been answered, once. */
  lemma EveryJobAnswered(n: nat, labels: seq<Label>, id: nat)
    requires n > 0 && Legal(n, INIT, labels)
    ensures var s := After(n, INIT, labels);
      Quiescent(n, s) && id < s.locked.nextId ==>
        exists k :: 0 <= k < |s.deliveries| && s.deliveries[k].id == id &&
          forall j :: 0 <= j < |s.deliveries| && s.deliveries[j].id == id ==> j == k
  {
    var s := After(n, INIT, labels);
    if Quiescent(n, s) && id < s.locked.nextId {
      ReachableInv(n, labels);
      QuiescentMeansDelivered(n, s);
      OneOutcomeEach(s, id);
    }
  }

  /** No outcome is ever sent twice, at any point of any run. */
  lemma NeverTwoOutcomes(n: nat, labels: seq<Label>, i: nat, j: nat)
    requires Legal(n, INIT, labels)
    ensures var d := After(n, INIT, labels).deliveries; i < j < |d| ==> d[i].id != d[j].id
  {
    var s := After(n, INIT, labels);
    ReachableInv(n, labels);
    if i < j < |s.deliveries| && s.deliveries[j].id == s.deliveries[i].id {
      assert Copies(s, s.deliveries[i].id) <= 1;
      SumTwo(Reporting(s.deliveries[i].id), s.deliveries, i, j);
    }
  }

  // ----- cancellation -----

  /** Step `i` of the run is the check after the work of `id`, and its scope is still live there. */
  ghost predicate JudgedLive(n: nat, labels: seq<Label>, i: nat, id: nat) {
    && i < |labels| && Legal(n, INIT, labels[..i]) && labels[i].Judge?
    && var s, w := After(n, INIT, labels[..i]), labels[i].w;
    && w < |s.workers| && s.workers[w].Returned? && s.workers[w].job.id == id
    && s.workers[w].job.scope !in s.cancelled
  }

  /** The job's scope is cancelled and its work has not begun: only `Cancelled` can come of it. */
  ghost predicate Doomed(s: State, job: Job) {
    && job.scope in s.cancelled && job.id < s.locked.nextId
    && (forall k :: 0 <= k < |s.locked.jobs| && s.locked.jobs[k].id == job.id ==> s.locked.jobs[k] == job)
    && (forall k :: 0 <= k < |s.draining| && s.draining[k].id == job.id ==> s.draining[k] == job)
    && (forall w :: 0 <= w < |s.workers| && Busy(s.workers[w]) && s.workers[w].job.id == job.id ==>
          s.workers[w] == Starting(job) || s.workers[w] == Sending(job, Cancelled))
    && (forall k :: 0 <= k < |s.deliveries| && s.deliveries[k].id == job.id ==> s.deliveries[k].outcome == Cancelled)
  }

  lemma WorkerStepKeepsDoomed(n: nat, s: State, l: Label, job: Job)
    requires Enabled(n, s, l) && Doomed(s, job) && MovesWorker(l)
    ensures Doomed(Apply(n, s, l), job)
  {
    var t := Apply(n, s, l);
    assert t.workers == s.workers[l.w := t.workers[l.w]];
    assert Busy(t.workers[l.w]) && t.workers[l.w].job.id == job.id ==>
      t.workers[l.w] == Starting(job) || t.workers[l.w] == Sending(job, Cancelled);
  }

  lemma StepKeepsDoomed(n: nat, s: State, l: Label, job: Job)
    requires Enabled(n, s, l) && Doomed(s, job)
    ensures Doomed(Apply(n, s, l), job)
  {
    if MovesWorker(l) {
      WorkerStepKeepsDoomed(n, s, l, job);
    } else {
      var t := Apply(n, s, l);
      forall w | 0 <= w < |t.workers| && Busy(t.workers[w]) ensures w < |s.workers| && t.workers[w] == s.workers[w] {}
    }
  }

  /** From a state where a job with a cancelled scope has not begun, no run ever executes it. */
  lemma {:induction false} DoomedNeverExecutes(n: nat, s: State, labels: seq<Label>, job: Job)
    requires Legal(n, s, labels) && Doomed(s, job)
    ensures var t := After(n, s, labels);
      && Doomed(t, job)
      && Executing(job) !in t.workers && Delivery(job.id, Complete) !in t.deliveries && Delivery(job.id, Panicked) !in t.deliveries
  {
    if labels != [] {
      DoomedNeverExecutes(n, s, labels[..|labels| - 1], job);
      StepKeepsDoomed(n, After(n, s, labels[..|labels| - 1]), labels[|labels| - 1], job);
    }
  }

  /** In a reachable state, cancelling the scope of a queued or just popped job dooms it. */
  lemma CancelledBeforeStartIsDoomed(n: nat, s: State, job: Job)
    requires Inv(n, s) && job.scope in s.cancelled
    requires job in s.locked.jobs || Starting(job) in s.workers
    ensures Doomed(s, job)
  {
    assert Copies(s, job.id) <= 1;
    if job in s.locked.jobs {
      var i :| 0 <= i < |s.locked.jobs| && s.locked.jobs[i] == job;
      SumAtLeast(Named(job.id), s.locked.jobs, i);
      OnlyInQueue(s, job.id);
    } else {
      var i :| 0 <= i < |s.workers| && s.workers[i] == Starting(job);
      SumAtLeast(Holding(job.id), s.workers, i);
      OnlyInWorkers(s, job.id, i);
    }
  }

  lemma OnlyInQueue(s: State, id: nat)
    requires Copies(s, id) <= 1 && Sum(Named(id), s.locked.jobs) >= 1
    ensures forall w :: 0 <= w < |s.workers| && Busy(s.workers[w]) ==> s.workers[w].job.id != id
    ensures forall k :: 0 <= k < |s.draining| ==> s.draining[k].id != id
    ensures forall k :: 0 <= k < |s.deliveries| ==> s.deliveries[k].id != id
  {
    forall w | 0 <= w < |s.workers| { SumAtLeast(Holding(id), s.workers, w); }
    forall k | 0 <= k < |s.draining| { SumAtLeast(Named(id), s.draining, k); }
    forall k | 0 <= k < |s.deliveries| { SumAtLeast(Reporting(id), s.deliveries, k); }
  }

  lemma OnlyInWorkers(s: State, id: nat, i: nat)
    requires Copies(s, id) <= 1 && i < |s.workers| && Holding(id)(s.workers[i]) == 1
    ensures forall w :: 0 <= w < |s.workers| && Busy(s.workers[w]) && s.workers[w].job.id == id ==> w == i
    ensures forall k :: 0 <= k < |s.locked.jobs| ==> s.locked.jobs[k].id != id
    ensures forall k :: 0 <= k < |s.draining| ==> s.draining[k].id != id
    ensures forall k :: 0 <= k < |s.deliveries| ==> s.deliveries[k].id != id
  {
    SumAtLeast(Holding(id), s.workers, i);
    forall w | 0 <= w < |s.workers| && Busy(s.workers[w]) && s.workers[w].job.id == id ensures w == i {
      if w != i { SumTwo(Holding(id), s.workers, w, i); }
    }
    forall k | 0 <= k < |s.locked.jobs| { SumAtLeast(Named(id), s.locked.jobs, k); }
    forall k | 0 <= k < |s.draining| { SumAtLeast(Named(id), s.draining, k); }
    forall k | 0 <= k < |s.deliveries| { SumAtLeast(Reporting(id), s.deliveries, k); }
  }

  // ----- start order -----

  /** Jobs of equal priority start in submission order in every run. */
  lemma StartsInSubmissionOrder(n: nat, labels: seq<Label>, i: nat, j: nat)
    requires Legal(n, INIT, labels)
    ensures var started := After(n, INIT, labels).starts;
      i < j < |started| && started[i].priority == started[j].priority ==> started[i].id < started[j].id
  {
    ReachableInv(n, labels);
    var started := After(n, INIT, labels).starts;
    assert i < j < |started| ==> Precedes(started[i], started[j]);
  }

  /** A job that starts outranks, strictly, every job left in the queue at that moment. */
  lemma StartedOutranksQueue(n: nat, labels: seq<Label>, w: nat, top: nat, k: nat)
    requires Legal(n, INIT, labels) && Enabled(n, After(n, INIT, labels), Take(w, top))
    ensures var t := Apply(n, After(n, INIT, labels), Take(w, top));
      t.workers[w].Starting? && k < |t.locked.jobs| ==> Compare(t.locked.jobs[k], t.workers[w].job) == Less
  {
    ReachableInv(n, labels);
    TakenOutranks(n, After(n, INIT, labels), w, top, k);
  }

  lemma TakenOutranks(n: nat, s: State, w: nat, top: nat, k: nat)
    requires FirstInFirstOut(s) && Enabled(n, s, Take(w, top))
    ensures var t := Apply(n, s, Take(w, top));
      t.workers[w].Starting? && k < |t.locked.jobs| ==> Compare(t.locked.jobs[k], t.workers[w].job) == Less
  {
    var jobs, t := s.locked.jobs, Apply(n, s, Take(w, top));
    if t.workers[w].Starting? && k < |t.locked.jobs| {
      var i := if k < top then k else k + 1;
      assert Compare(jobs[i], jobs[top]) != Greater && jobs[i].id != jobs[top].id;
    }
  }

  /** Whenever a worker takes a job, in any run, it is the most urgent one queued, and it leaves the queue. */
  lemma StartsMostUrgent(n: nat, labels: seq<Label>, w: nat, top: nat)
    requires Legal(n, INIT, labels) && Enabled(n, After(n, INIT, labels), Take(w, top))
    ensures var s, t := After(n, INIT, labels), Apply(n, After(n, INIT, labels), Take(w, top));
      t.workers[w].Starting? ==> MostUrgent(s.locked.jobs, t.workers[w].job) && t.workers[w].job !in t.locked.jobs
  {
    ReachableInv(n, labels);
    TakenIsMostUrgent(n, After(n, INIT, labels), w, top);
  }

  lemma TakenIsMostUrgent(n: nat, s: State, w: nat, top: nat)
    requires FirstInFirstOut(s) && Enabled(n, s, Take(w, top))
    ensures var t := Apply(n, s, Take(w, top));
      t.workers[w].Starting? ==> MostUrgent(s.locked.jobs, t.workers[w].job) && t.workers[w].job !in t.locked.jobs
  {
    var t := Apply(n, s, Take(w, top));
    if t.workers[w].Starting? {
      TopIffMostUrgent(s.locked.jobs, top);
      forall k | 0 <= k < |t.locked.jobs| ensures t.locked.jobs[k] != t.workers[w].job {
        TakenOutranks(n, s, w, top, k);
      }
    }
  }

  // ----- every outcome has its reason -----

  /** What a step that settles a job's outcome says about it. */
  ghost predicate Settles(s: State, l: Label, id: nat, outcome: Outcome) {
    match outcome
    case Complete => l.Judge? && HoldsJob(s, l.w, id) && s.workers[l.w].Returned? && s.workers[l.w].job.scope !in s.cancelled
    case Panicked => l.Finish? && HoldsJob(s, l.w, id) && s.workers[l.w].Executing? && l.panicked
    case Cancelled =>
      || (l.Begin? && HoldsJob(s, l.w, id) && s.workers[l.w].Starting? && s.workers[l.w].job.scope in s.cancelled)
      || (l.Judge? && HoldsJob(s, l.w, id) && s.workers[l.w].Returned? && s.workers[l.w].job.scope in s.cancelled)
      || (l.Drain? && s.dropped && l.k < |s.draining| && s.draining[l.k].id == id)
  }

  ghost predicate HoldsJob(s: State, w: nat, id: nat) {
    w < |s.workers| && Busy(s.workers[w]) && s.workers[w].job.id == id
  }

  ghost predicate Bound(s: State, id: nat, outcome: Outcome) {
    || Delivery(id, outcome) in s.deliveries
    || exists w :: 0 <= w < |s.workers| && s.workers[w].Sending? && s.workers[w].job.id == id && s.workers[w].outcome == outcome
  }

  /** A delivery that was not bound before comes from the dropped pool. */
  lemma StepToDelivered(n: nat, s: State, l: Label, id: nat, outcome: Outcome)
    requires s.draining != [] ==> s.dropped
    requires Enabled(n, s, l) && !Bound(s, id, outcome) && Delivery(id, outcome) in Apply(n, s, l).deliveries
    ensures Settles(s, l, id, outcome)
  {
  }

  lemma StepToSending(n: nat, s: State, l: Label, id: nat, outcome: Outcome, w: nat)
    requires Enabled(n, s, l) && !Bound(s, id, outcome) && w < |Apply(n, s, l).workers|
    requires var p := Apply(n, s, l).workers[w]; p.Sending? && p.job.id == id && p.outcome == outcome
    ensures Settles(s, l, id, outcome)
  {
    var t := Apply(n, s, l);
    assert w < |s.workers| ==> !(s.workers[w] == t.workers[w]);
    assert MovesWorker(l) && l.w == w;
  }

  lemma StepToBound(n: nat, s: State, l: Label, id: nat, outcome: Outcome)
    requires s.draining != [] ==> s.dropped
    requires Enabled(n, s, l) && !Bound(s, id, outcome) && Bound(Apply(n, s, l), id, outcome)
    ensures Settles(s, l, id, outcome)
  {
    var t := Apply(n, s, l);
    if Delivery(id, outcome) in t.deliveries {
      StepToDelivered(n, s, l, id, outcome);
    } else {
      var w :| 0 <= w < |t.workers| && t.workers[w].Sending? && t.workers[w].job.id == id && t.workers[w].outcome == outcome;
      StepToSending(n, s, l, id, outcome, w);
    }
  }

  lemma StepDrainsWhenDropped(n: nat, s: State, l: Label)
    requires Enabled(n, s, l) && (s.draining != [] ==> s.dropped)
    ensures Apply(n, s, l).draining != [] ==> Apply(n, s, l).dropped
  {
  }

  lemma {:induction false} DrainsWhenDropped(n: nat, labels: seq<Label>)
    requires Legal(n, INIT, labels)
    ensures After(n, INIT, labels).draining != [] ==> After(n, INIT, labels).dropped
  {
    if labels != [] {
      var before := labels[..|labels| - 1];
      DrainsWhenDropped(n, before);
      StepDrainsWhenDropped(n, After(n, INIT, before), labels[|labels| - 1]);
    }
  }

  /**
   Every outcome in a run was settled by a step that justifies it: `Complete` by a check
   after the work that found the scope live, `Panicked` by work that panicked, `Cancelled`
   by a check that found the scope cancelled or by the dropped pool draining its queue.
   */
  lemma {:induction false} OutcomeWasSettled(n: nat, labels: seq<Label>, id: nat, outcome: Outcome) returns (i: nat)
    requires Legal(n, INIT, labels)
    ensures Bound(After(n, INIT, labels), id, outcome) ==>
              i < |labels| && Legal(n, INIT, labels[..i]) && Settles(After(n, INIT, labels[..i]), labels[i], id, outcome)
  {
    i := 0;
    if Bound(After(n, INIT, labels), id, outcome) {
      var last := |labels| - 1;
      var before := labels[..last];
      var s := After(n, INIT, before);
      if Bound(s, id, outcome) {
        i := OutcomeWasSettled(n, before, id, outcome);
        assert before[..i] == labels[..i];
      } else {
        i := last;
        DrainsWhenDropped(n, before);
        StepToBound(n, s, labels[last], id, outcome);
      }
    }
  }

  /** `Complete` is only ever sent for a job whose scope was live at the check after its work. */
  lemma CompleteWasLive(n: nat, labels: seq<Label>, id: nat) returns (i: nat)
    requires Legal(n, INIT, labels)
    ensures Bound(After(n, INIT, labels), id, Complete) ==> JudgedLive(n, labels, i, id)
  {
    i := OutcomeWasSettled(n, labels, id, Complete);
  }

  /** And what a step settles is what is sent: the outcome is bound from then on. */
  lemma StepSettles(n: nat, s: State, l: Label, id: nat, outcome: Outcome)
    requires Enabled(n, s, l) && Settles(s, l, id, outcome)
    ensures Bound(Apply(n, s, l), id, outcome)
  {
    var t := Apply(n, s, l);
    if l.Drain? {
      assert t.deliveries[|s.deliveries|] == Delivery(id, Cancelled);
    } else {
      assert t.workers[l.w].Sending?;
    }
  }

  lemma {:induction false} BoundStays(n: nat, s: State, labels: seq<Label>, id: nat, outcome: Outcome)
    requires Legal(n, s, labels) && Bound(s, id, outcome)
    ensures Bound(After(n, s, labels), id, outcome)
  {
    if labels != [] {
      var before := labels[..|labels| - 1];
      BoundStays(n, s, before, id, outcome);
      StepKeepsBound(n, After(n, s, before), labels[|labels| - 1], id, outcome);
    }
  }

  lemma StepKeepsBound(n: nat, s: State, l: Label, id: nat, outcome: Outcome)
    requires Enabled(n, s, l) && Bound(s, id, outcome)
    ensures Bound(Apply(n, s, l), id, outcome)
  {
    var t := Apply(n, s, l);
    if Delivery(id, outcome) in s.deliveries {
      var k :| 0 <= k < |s.deliveries| && s.deliveries[k] == Delivery(id, outcome);
      assert t.deliveries[k] == s.deliveries[k];
    } else {
      var w :| 0 <= w < |s.workers| && s.workers[w].Sending? && s.workers[w].job.id == id && s.workers[w].outcome == outcome;
      if l == Send(w) {
        assert t.deliveries[|s.deliveries|] == Delivery(id, outcome);
      } else {
        assert t.workers[w] == s.workers[w];
      }
    }
  }

  // ----- the mutex-protected state as the source updates it -----

  class SharedState {
    var jobs: seq<Job>
    var nextId: nat
    var started: bool
    var stopped: bool

    ghost function View(): Locked
      reads this
    {
      Locked(jobs, nextId, started, stopped)
    }

    constructor ()
      ensures View() == INIT.locked
    {
      jobs, nextId, started, stopped := [], 0, false, false;
    }

    /** The locked part of `submit_inner`; the system can create `spawnable` threads. */
    method SubmitInner(n: nat, priority: Priority, scope: nat, spawnable: nat) returns (created: nat, accepted: bool)
      modifies this
      ensures Submission(View(), created, accepted) == SubmitLocked(n, old(View()), priority, scope, spawnable)
    {
      created := 0;
      if stopped {
        return 0, false;
      }
      if !started {
        started := true;
        for index := 0 to n
          invariant created == index <= spawnable
          invariant View() == old(View()).(started := true)
        {
          if index >= spawnable {
            stopped := true;
            return created, false;
          }
          created := created + 1;
        }
      }
      if nextId >= U64_MAX {
        return created, false;
      }
      jobs := jobs + [Job(priority, nextId, scope)];
      nextId := nextId + 1;
      accepted := true;
    }

    /** One turn of the worker loop while it holds the mutex. */
    method TakeTurn() returns (turn: Turn, ghost top: nat)
      modifies this
      ensures old(View()).stopped || old(View()).jobs == [] || IsTop(old(View()).jobs, top)
      ensures turn == TurnOf(old(View()), top) && View() == TakeLocked(old(View()), top)
      ensures turn.Exit? <==> old(stopped)
      ensures turn.Sleep? <==> !old(stopped) && old(jobs) == []
      ensures turn.Run? ==> MostUrgent(old(jobs), turn.job)
    {
      top := 0;
      if stopped {
        return Exit, 0;
      }
      if jobs == [] {
        return Sleep, 0;
      }
      TopExists(jobs);
      var k: nat :| k < |jobs| && IsTop(jobs, k);
      TopIffMostUrgent(jobs, k);
      turn, top := Run(jobs[k]), k;
      jobs := Without(jobs, k);
    }

    /** The locked part of dropping the pool: stop, and take the queue away. */
    method Stop() returns (taken: seq<Job>)
      modifies this
      ensures taken == old(jobs) && View() == old(View()).(stopped := true, jobs := [])
    {
      stopped := true;
      taken := jobs;
      jobs := [];
    }
  }
}
