/**
 Background jobs: the registry, the life cycle of a job, cancellation and pruning, one locked
 section per step, over every interleaving.
 */
module Jobs {
  import opened Text

  datatype Status = RunningJob | Cancelling | Exited | Failed | Cancelled | TimedOut

  /** The command's context: `Expired` means that its deadline came first. */
  datatype Context = Live | Canceled | Expired

  /** Where the worker of a job stands. */
  datatype Phase =
    | Executing                                                      // waits for the process or the context
    | Killed                                                         // saw the context done, waits for the process
    | Reaped(timedOut: bool, waitCanceled: bool)                     // has the process's result
    | Deciding(timedOut: bool, waitCanceled: bool, wasCancelled: bool)
    | Reporting(status: Status, timedOut: bool, errCanceled: bool)   // about to record the outcome
    | Recorded                                                       // about to leave the registry's count
    | Deregistered

  datatype Job = Job(status: Status, finished: Option<int>, cancelRequested: bool, timedOut: Option<bool>,
                     context: Context, phase: Phase)

  const NEW_JOB := Job(RunningJob, None, false, None, Live, Executing)

  const RETENTION := 3600
  const MAX_JOBS := 16

  // ---------------------------------------------------------- the steps of one job

  /** The status a worker chooses: a cancellation wins over a timeout. `sawCanceled` is what it
      reads of the parent context. */
  function Choose(ctx: Context, sawCanceled: bool, d: Phase): (Status, bool)
    requires d.Deciding?
  {
    if d.wasCancelled || sawCanceled || ctx == Canceled || d.waitCanceled then (Cancelled, false)
    else if d.timedOut || ctx == Expired then (TimedOut, true)
    else (Exited, d.timedOut)
  }

  /** `finish`: a recorded cancellation turns a failure or a timeout into a cancellation. */
  function Finish(j: Job, now: int): Job
    requires j.phase.Reporting?
  {
    var r := j.phase;
    var toCancelled := (j.cancelRequested && r.status in {Failed, TimedOut}) || (r.status == Failed && r.errCanceled);
    j.(status := if toCancelled then Cancelled else r.status,
       timedOut := Some(if toCancelled then false else r.timedOut),
       finished := Some(now), phase := Recorded)
  }

  /** `requestCancel`; a finished job is left alone. */
  function RequestCancel(j: Job): Job {
    if j.finished.Some? then j else j.(cancelRequested := true, status := Cancelling)
  }

  /** The cancel function a requester was handed. */
  function CancelContext(j: Job): Job {
    if j.context == Live then j.(context := Canceled) else j
  }

  function Expire(j: Job): Job {
    if j.context == Live then j.(context := Expired) else j
  }

  datatype Event =
    | StartFails(errCanceled: bool)
    | SeesContextDone
    | ProcessEnds(waitCanceled: bool)
    | LooksForCancel
    | Chooses(sawCanceled: bool)
    | Records(now: int)
    | CancelRequested
    | ContextCanceled
    | DeadlinePasses

  ghost predicate Enabled(j: Job, e: Event) {
    match e
    case StartFails(_) => j.phase.Executing?
    case SeesContextDone => j.phase.Executing? && j.context != Live
    case ProcessEnds(_) => j.phase.Executing? || j.phase.Killed?
    case LooksForCancel => j.phase.Reaped?
    case Chooses(saw) => j.phase.Deciding? && (saw ==> j.context == Canceled || j.cancelRequested)
    case Records(_) => j.phase.Reporting?
    case CancelRequested => true
    case ContextCanceled => j.cancelRequested
    case DeadlinePasses => true
  }

  ghost function Happen(j: Job, e: Event): Job
    requires Enabled(j, e)
  {
    match e
    case StartFails(errCanceled) => j.(phase := Reporting(Failed, false, errCanceled))
    case SeesContextDone => j.(phase := Killed)
    case ProcessEnds(waitCanceled) => j.(phase := Reaped(j.phase.Killed?, waitCanceled))
    case LooksForCancel =>
      j.(phase := Deciding(j.phase.timedOut, j.phase.waitCanceled, j.cancelRequested || j.status == Cancelling))
    case Chooses(saw) =>
      var (status, timedOut) := Choose(j.context, saw, j.phase);
      j.(phase := Reporting(status, timedOut, false))
    case Records(now) => Finish(j, now)
    case CancelRequested => RequestCancel(j)
    case ContextCanceled => CancelContext(j)
    case DeadlinePasses => Expire(j)
  }

  // ------------------------------------------------------------------ the registry

  type JobId = nat
  type PruneId = nat

  /** A pruning pass: the time it read, the jobs it has yet to look at, the expired ones. */
  datatype Prune = Prune(now: int, seen: set<JobId>, expired: set<JobId>)

  /** `jobs` is the registry's map, `all` every job object ever registered. */
  datatype State = State(jobs: set<JobId>, active: int, all: map<JobId, Job>, prunes: map<PruneId, Prune>)

  ghost predicate Init(s: State) {
    s == State({}, 0, map[], map[])
  }

  function Register(s: State, id: JobId): State {
    if s.active >= MAX_JOBS then s
    else s.(jobs := s.jobs + {id}, active := s.active + 1, all := s.all[id := NEW_JOB])
  }

  function Update(s: State, id: JobId, j: Job): State {
    s.(all := s.all[id := j])
  }

  /** `removeFinishedJob`. */
  function Deregister(s: State, id: JobId): State
    requires id in s.all
  {
    Update(s, id, s.all[id].(phase := Deregistered)).(active := if s.active > 0 then s.active - 1 else s.active)
  }

  function BeginPrune(s: State, p: PruneId, now: int): State {
    s.(prunes := s.prunes[p := Prune(now, s.jobs, {})])
  }

  predicate IsExpired(j: Job, now: int) {
    j.finished.Some? && now - j.finished.value > RETENTION
  }

  function CheckExpired(s: State, p: PruneId, id: JobId): State
    requires p in s.prunes && id in s.all
  {
    var pr := s.prunes[p];
    if IsExpired(s.all[id], pr.now) then s.(prunes := s.prunes[p := pr.(expired := pr.expired + {id})]) else s
  }

  function EndPrune(s: State, p: PruneId): State
    requires p in s.prunes
  {
    s.(jobs := s.jobs - s.prunes[p].expired, prunes := s.prunes - {p})
  }

  ghost predicate Next(s: State, s': State) {
    || (exists id :: id !in s.all && s' == Register(s, id))
    || (exists id, e :: id in s.all && Enabled(s.all[id], e) && s' == Update(s, id, Happen(s.all[id], e)))
    || (exists id :: id in s.all && s.all[id].phase == Recorded && s' == Deregister(s, id))
    || (exists p, now :: p !in s.prunes && s' == BeginPrune(s, p, now))
    || (exists p, id :: p in s.prunes && id in s.prunes[p].seen && id in s.all && s' == CheckExpired(s, p, id))
    || (exists p :: p in s.prunes && s' == EndPrune(s, p))
  }

  // ------------------------------------------------------- the locked sections as code

  /** A job object; its lock makes each method one step. */
  class CommandJob {
    var status: Status
    var finished: Option<int>
    var cancelRequested: bool
    var timedOut: Option<bool>

    /** The job, with what lies outside the object. */
    ghost function Value(context: Context, phase: Phase): Job
      reads this
    {
      Job(status, finished, cancelRequested, timedOut, context, phase)
    }

    constructor ()
      ensures Value(Live, Executing) == NEW_JOB
    {
      status, finished, cancelRequested, timedOut := RunningJob, None, false, None;
    }

    method FinishLocked(wanted: Status, runTimedOut: bool, errCanceled: bool, now: int)
      modifies this
      ensures forall c :: Value(c, Recorded) == Finish(old(Value(c, Reporting(wanted, runTimedOut, errCanceled))), now)
      ensures status == (if old(cancelRequested) && (wanted == Failed || wanted == TimedOut) then Cancelled
                         else if wanted == Failed && errCanceled then Cancelled else wanted)
      ensures timedOut == Some(runTimedOut && status == wanted) && finished == Some(now)
      ensures cancelRequested == old(cancelRequested)
    {
      var chosen, result := wanted, runTimedOut;
      if cancelRequested && (chosen == Failed || chosen == TimedOut) {
        chosen, result := Cancelled, false;
      }
      if chosen == Failed && errCanceled {
        chosen, result := Cancelled, false;
      }
      timedOut := Some(result);
      finished := Some(now);
      status := chosen;
    }

    method RequestCancelLocked() returns (seen: Status, alreadyDone: bool)
      modifies this
      ensures forall c, ph :: Value(c, ph) == RequestCancel(old(Value(c, ph)))
      ensures alreadyDone == old(finished).Some? && seen == status
      ensures !alreadyDone ==> cancelRequested && status == Cancelling
      ensures alreadyDone ==> cancelRequested == old(cancelRequested) && status == old(status)
      ensures finished == old(finished) && timedOut == old(timedOut)
    {
      alreadyDone := finished.Some?;
      if !alreadyDone {
        cancelRequested := true;
        status := Cancelling;
      }
      seen := status;
    }

    method Expired(now: int) returns (expired: bool)
      ensures forall c, ph :: expired == IsExpired(Value(c, ph), now)
      ensures expired <==> finished.Some? && now > finished.value + 3600
    {
      expired := finished.Some? && now - finished.value > RETENTION;
    }
  }

  /** The registry's part of a state. */
  ghost predicate Agrees(keys: set<JobId>, active: int, s: State) {
    s.jobs == keys && s.active == active
  }

  class Registry {
    var jobs: map<JobId, CommandJob>
    var active: int

    constructor ()
      ensures jobs == map[] && active == 0
    {
      jobs, active := map[], 0;
    }

    method RegisterLocked(id: JobId, job: CommandJob) returns (registered: bool)
      modifies this
      ensures registered <==> old(active) < 16
      ensures jobs == if registered then old(jobs)[id := job] else old(jobs)
      ensures forall s :: Agrees(old(jobs.Keys), old(active), s) ==> Agrees(jobs.Keys, active, Register(s, id))
    {
      registered := active < MAX_JOBS;
      if registered {
        jobs := jobs[id := job];
        active := active + 1;
      }
    }

    method RemoveFinishedLocked()
      modifies this
      ensures jobs == old(jobs)
      ensures forall s, id :: Agrees(old(jobs.Keys), old(active), s) && id in s.all ==>
                Agrees(jobs.Keys, active, Deregister(s, id))
    {
      if active > 0 {
        active := active - 1;
      }
    }

    /** Drops the jobs that still are the ones found expired. */
    method RemoveExpiredLocked(expired: map<JobId, CommandJob>)
      modifies this
      ensures active == old(active)
      ensures jobs == map id | id in old(jobs) && !(id in expired && expired[id] == old(jobs)[id]) :: old(jobs)[id]
    {
      var left := expired.Keys;
      while left != {}
        invariant left <= expired.Keys && active == old(active)
        invariant jobs == map id | id in old(jobs) && !(id in expired.Keys - left && expired[id] == old(jobs)[id])
                                 :: old(jobs)[id]
        decreases left
      {
        var id :| id in left;
        if id in jobs && jobs[id] == expired[id] {
          jobs := jobs - {id};
        }
        left := left - {id};
      }
    }

    /** A pruning pass that nothing interrupts removes exactly the expired jobs. */
    method PruneFinishedJobs(now: int)
      modifies this
      ensures active == old(active)
      ensures forall id :: id in jobs ==> id in old(jobs) && jobs[id] == old(jobs)[id]
      ensures forall id :: id in old(jobs) ==>
                (id !in jobs <==> IsExpired(old(jobs)[id].Value(Live, Recorded), now))
    {
      var snapshot := jobs;
      var expired := map[];
      var left := snapshot.Keys;
      while left != {}
        invariant left <= snapshot.Keys && jobs == snapshot == old(jobs) && active == old(active)
        invariant expired == map id | id in snapshot.Keys - left && IsExpired(snapshot[id].Value(Live, Recorded), now)
                                    :: snapshot[id]
        decreases left
      {
        var id :| id in left;
        var e := snapshot[id].Expired(now);
        if e {
          expired := expired[id := snapshot[id]];
        }
        left := left - {id};
      }
      RemoveExpiredLocked(expired);
    }
  }

  /** With ids that stay fresh, dropping the jobs found expired is dropping their ids. */
  lemma ExpiredByKey(jobs: map<JobId, CommandJob>, expired: map<JobId, CommandJob>)
    requires forall id :: id in jobs && id in expired ==> jobs[id] == expired[id]
    ensures (map id | id in jobs && !(id in expired && expired[id] == jobs[id]) :: jobs[id]).Keys
            == jobs.Keys - expired.Keys
  {
  }

  // ----------------------------------------------------------------- the invariant

  predicate IsFinal(st: Status) {
    st in {Exited, Failed, Cancelled, TimedOut}
  }

  /** What the worker has learnt agrees with the context and the request. */
  predicate PhaseSound(j: Job) {
    match j.phase
    case Killed => j.context != Live
    case Reaped(timedOut, _) => timedOut ==> j.context != Live
    case Deciding(timedOut, _, wasCancelled) =>
      (timedOut ==> j.context != Live) && (wasCancelled ==> j.cancelRequested)
    case Reporting(status, timedOut, _) => IsFinal(status) && (timedOut <==> status == TimedOut)
    case _ => true
  }

  predicate JobInv(j: Job) {
    && PhaseSound(j)
    && (j.finished.Some? <==> j.phase.Recorded? || j.phase.Deregistered?)
    && (j.finished.None? ==> j.status == (if j.cancelRequested then Cancelling else RunningJob) && j.timedOut == None)
    && (j.finished.Some? ==>
          && IsFinal(j.status) && j.timedOut == Some(j.status == TimedOut)
          && (j.cancelRequested ==> j.status in {Cancelled, Exited}))
  }

  /** Workers the registry still counts. */
  function Workers(s: State): set<JobId> {
    set id | id in s.all && s.all[id].phase != Deregistered
  }

  ghost predicate Inv(s: State) {
    && (forall id :: id in s.all ==> JobInv(s.all[id]))
    && s.active == |Workers(s)| <= MAX_JOBS
    && (forall id :: id in s.all && s.all[id].finished.None? ==> id in s.jobs)
    && s.jobs <= s.all.Keys
    && (forall p, id :: p in s.prunes && id in s.prunes[p].expired ==> id in s.all && s.all[id].finished.Some?)
    && (forall p, id :: p in s.prunes && id in s.prunes[p].seen ==> id in s.all)
  }

  lemma EventKeepsJobInv(j: Job, e: Event)
    requires JobInv(j) && Enabled(j, e)
    ensures JobInv(Happen(j, e))
    ensures j.finished.Some? ==>
              var j' := Happen(j, e);
              && j'.finished == j.finished && j'.status == j.status && j'.timedOut == j.timedOut
              && j'.cancelRequested == j.cancelRequested
    ensures (Happen(j, e).phase == Deregistered) <==> (j.phase == Deregistered)
  {
  }

  // --------------------------------------------------------------- every step keeps it

  lemma WorkersIfChanged(s: State, s': State, id: JobId)
    requires forall x :: x != id ==> (x in Workers(s) <==> x in Workers(s'))
    ensures |Workers(s')| == |Workers(s)| - (if id in Workers(s) then 1 else 0) + (if id in Workers(s') then 1 else 0)
  {
    hide Workers;
    SizeIfChanged(Workers(s), Workers(s'), id);
  }

  lemma RegisterKeepsInv(s: State, id: JobId)
    requires Inv(s) && id !in s.all
    ensures Inv(Register(s, id))
  {
    WorkersIfChanged(s, Register(s, id), id);
  }

  lemma UpdateKeepsInv(s: State, id: JobId, e: Event)
    requires Inv(s) && id in s.all && Enabled(s.all[id], e)
    ensures Inv(Update(s, id, Happen(s.all[id], e)))
  {
    hide Enabled, Happen, JobInv;
    EventKeepsJobInv(s.all[id], e);
    WorkersIfChanged(s, Update(s, id, Happen(s.all[id], e)), id);
  }

  lemma DeregisterKeepsInv(s: State, id: JobId)
    requires Inv(s) && id in s.all && s.all[id].phase == Recorded
    ensures Inv(Deregister(s, id)) && s.active > 0
  {
    assert id in Workers(s);
    WorkersIfChanged(s, Deregister(s, id), id);
  }

  lemma SameWorkers(s: State, s': State)
    requires s.all == s'.all
    ensures Workers(s') == Workers(s)
  {
  }

  lemma BeginPruneKeepsInv(s: State, p: PruneId, now: int)
    requires Inv(s) && p !in s.prunes
    ensures Inv(BeginPrune(s, p, now))
  {
    SameWorkers(s, BeginPrune(s, p, now));
    hide Workers;
  }

  lemma CheckExpiredKeepsInv(s: State, p: PruneId, id: JobId)
    requires Inv(s) && p in s.prunes && id in s.all
    ensures Inv(CheckExpired(s, p, id))
  {
    SameWorkers(s, CheckExpired(s, p, id));
    hide Workers;
  }

  lemma EndPruneKeepsInv(s: State, p: PruneId)
    requires Inv(s) && p in s.prunes
    ensures Inv(EndPrune(s, p))
  {
    SameWorkers(s, EndPrune(s, p));
    hide Workers;
  }

  lemma NextKeepsInv(s: State, s': State)
    requires Inv(s) && Next(s, s')
    ensures Inv(s')
  {
    hide Inv, Register, Update, Deregister, BeginPrune, CheckExpired, EndPrune, Happen, Enabled;
    if id :| id !in s.all && s' == Register(s, id) {
      RegisterKeepsInv(s, id);
    } else if id, e :| id in s.all && Enabled(s.all[id], e) && s' == Update(s, id, Happen(s.all[id], e)) {
      UpdateKeepsInv(s, id, e);
    } else if id :| id in s.all && s.all[id].phase == Recorded && s' == Deregister(s, id) {
      DeregisterKeepsInv(s, id);
    } else if p, now :| p !in s.prunes && s' == BeginPrune(s, p, now) {
      BeginPruneKeepsInv(s, p, now);
    } else if p, id :| p in s.prunes && id in s.prunes[p].seen && id in s.all && s' == CheckExpired(s, p, id) {
      CheckExpiredKeepsInv(s, p, id);
    } else {
      var p :| p in s.prunes && s' == EndPrune(s, p);
      EndPruneKeepsInv(s, p);
    }
  }

  // ------------------------------------------------------------------- whole runs

  ghost predicate IsRun(run: seq<State>) {
    && run != [] && Init(run[0])
    && forall i :: 0 <= i < |run| - 1 ==> Next(run[i], run[i + 1])
  }

  lemma {:induction false} RunKeepsInv(run: seq<State>, i: nat)
    requires IsRun(run) && i < |run|
    ensures Inv(run[i])
    decreases i
  {
    hide Inv, Next;
    if i == 0 {
      InitHasInv(run[0]);
    } else {
      RunKeepsInv(run, i - 1);
      assert Next(run[i - 1], run[i - 1 + 1]);
      NextKeepsInv(run[i - 1], run[i]);
    }
  }

  lemma InitHasInv(s: State)
    requires Init(s)
    ensures Inv(s)
  {
    assert Workers(s) == {};
  }

  /** In every run the count of active jobs is the number of workers not yet deregistered, and
      stays between 0 and the maximum. */
  lemma ActiveCountIsExact(run: seq<State>)
    requires IsRun(run)
    ensures var s := run[|run| - 1]; 0 <= s.active == |Workers(s)| <= MAX_JOBS
  {
    RunKeepsInv(run, |run| - 1);
  }

  /** However pruning interleaves, a job that has not finished can be looked up. */
  lemma UnfinishedJobsStayFindable(run: seq<State>, id: JobId)
    requires IsRun(run)
    requires var s := run[|run| - 1]; id in s.all && s.all[id].finished.None?
    ensures id in run[|run| - 1].jobs
  {
    RunKeepsInv(run, |run| - 1);
  }

  /** What a finished job reports. */
  lemma FinishedJobsReportTruly(run: seq<State>, id: JobId)
    requires IsRun(run)
    requires var s := run[|run| - 1]; id in s.all && s.all[id].finished.Some?
    ensures var j := run[|run| - 1].all[id];
            && IsFinal(j.status)
            && (j.timedOut == Some(true) <==> j.status == TimedOut) && j.timedOut.Some?
            && (j.cancelRequested ==> j.status in {Cancelled, Exited})
  {
    RunKeepsInv(run, |run| - 1);
  }

  /** Whatever a step does to the job objects, it is one event of one job, or deregistration. */
  ghost predicate JobSteps(j: Job, j': Job) {
    j' == j || j' == j.(phase := Deregistered) || exists e :: Enabled(j, e) && j' == Happen(j, e)
  }

  lemma NextOfJob(s: State, s': State, id: JobId)
    requires Next(s, s') && id in s.all
    ensures id in s'.all && JobSteps(s.all[id], s'.all[id])
  {
    hide Happen, Enabled;
    if x, e :| x in s.all && Enabled(s.all[x], e) && s' == Update(s, x, Happen(s.all[x], e)) {
    }
  }

  ghost predicate SameOutcome(j: Job, j': Job) {
    && j.finished.Some? && j'.finished == j.finished && j'.status == j.status && j'.timedOut == j.timedOut
  }

  lemma StepKeepsOutcome(s: State, s': State, id: JobId)
    requires Inv(s) && Next(s, s') && id in s.all && s.all[id].finished.Some?
    ensures id in s'.all && SameOutcome(s.all[id], s'.all[id])
  {
    hide Next, Workers;
    NextOfJob(s, s', id);
    if e :| Enabled(s.all[id], e) && s'.all[id] == Happen(s.all[id], e) {
      EventKeepsJobInv(s.all[id], e);
    }
  }

  /** Once finished, a job's outcome never changes. */
  lemma {:induction false} OutcomeIsFinal(run: seq<State>, i: nat, k: nat, id: JobId)
    requires IsRun(run) && i <= k < |run| && id in run[i].all && run[i].all[id].finished.Some?
    ensures id in run[k].all && SameOutcome(run[i].all[id], run[k].all[id])
    decreases k - i
  {
    hide Inv, Next;
    if i < k {
      RunKeepsInv(run, i);
      assert Next(run[i], run[i + 1]);
      StepKeepsOutcome(run[i], run[i + 1], id);
      OutcomeIsFinal(run, i + 1, k, id);
    }
  }

  // ---------------------------------------------------------------- what a worker reports

  /** What becomes of a job whose worker chooses and records its status. */
  lemma OutcomeIs(j: Job, saw: bool, now: int)
    requires j.phase.Deciding? && Enabled(j, Chooses(saw))
    ensures var end := Happen(Happen(j, Chooses(saw)), Records(now));
            var canceled := j.phase.wasCancelled || j.phase.waitCanceled || saw || j.context == Canceled;
            var late := j.phase.timedOut || j.context == Expired;
            && end.status == (if canceled || (late && j.cancelRequested) then Cancelled
                              else if late then TimedOut else Exited)
            && end.timedOut == Some(end.status == TimedOut) && end.finished == Some(now)
  {
  }

  /** And of a job whose process could not be started. */
  lemma FailedStartIs(j: Job, errCanceled: bool, now: int)
    requires j.phase.Executing?
    ensures var end := Happen(Happen(j, StartFails(errCanceled)), Records(now));
            && end.status == (if errCanceled || j.cancelRequested then Cancelled else Failed)
            && end.timedOut == Some(false) && end.finished == Some(now)
  {
  }

  /** A job that ends as timed out unless a cancellation is still recorded. */
  predicate TimingOut(j: Job) {
    || j.cancelRequested
    || (j.phase.Deciding? && j.context == Expired && !j.phase.waitCanceled && !j.phase.wasCancelled)
    || (j.phase.Reporting? && j.phase.status == TimedOut && j.phase.timedOut)
    || (j.finished.Some? && j.status == TimedOut && j.timedOut == Some(true))
  }

  lemma StepKeepsTimingOut(j: Job, j': Job)
    requires JobInv(j) && TimingOut(j) && JobSteps(j, j')
    requires j'.phase == Deregistered ==> j.phase in {Recorded, Deregistered}
    ensures TimingOut(j')
  {
  }

  /** A job whose deadline passed before its worker chose, and whose process was not canceled, ends
      as timed out, and says so, unless a cancellation was recorded. */
  lemma {:induction false} TimeoutIsReported(s: State, path: seq<State>, id: JobId)
    requires Inv(s) && Leads(s, path) && id in s.all && TimingOut(s.all[id])
    ensures var end := path[|path| - 1];
            && Inv(end) && id in end.all && TimingOut(end.all[id])
            && (end.all[id].finished.Some? && !end.all[id].cancelRequested ==>
                  end.all[id].status == TimedOut && end.all[id].timedOut == Some(true))
    decreases |path|
  {
    hide Inv, Next, JobSteps;
    var n := |path| - 1;
    if n > 0 {
      TimeoutIsReported(s, path[..n], id);
      assert Next(path[n - 1], path[n - 1 + 1]);
      NextKeepsInv(path[n - 1], path[n]);
      NextOfJob(path[n - 1], path[n], id);
      JobInvOf(path[n - 1], id);
      if path[n].all[id].phase == Deregistered {
        DeregisteredAfterRecorded(path[n - 1], path[n], id);
      }
      StepKeepsTimingOut(path[n - 1].all[id], path[n].all[id]);
    }
    JobInvOf(path[n], id);
  }

  // ---------------------------------------------------------- what a cancellation decides

  /** Steps lead from a state along a path. */
  ghost predicate Leads(s: State, path: seq<State>) {
    && path != [] && path[0] == s
    && forall i :: 0 <= i < |path| - 1 ==> Next(path[i], path[i + 1])
  }

  /** A cancelled job that can no longer end otherwise: its worker has yet to look, or has seen
      the cancellation, a failure, a timeout or a context that is done. */
  predicate BoundToCancel(j: Job) {
    && j.cancelRequested
    && match j.phase
       case Executing => true
       case Killed => true
       case Reaped(_, _) => true
       case Deciding(timedOut, waitCanceled, wasCancelled) =>
         wasCancelled || waitCanceled || timedOut || j.context != Live
       case Reporting(status, _, _) => status != Exited
       case _ => j.status == Cancelled
  }

  lemma StepKeepsBound(j: Job, j': Job)
    requires JobInv(j) && BoundToCancel(j) && JobSteps(j, j')
    requires j'.phase == Deregistered ==> j.phase in {Recorded, Deregistered}
    ensures BoundToCancel(j')
  {
  }

  lemma DeregisteredAfterRecorded(s: State, s': State, id: JobId)
    requires Inv(s) && Next(s, s') && id in s.all && id in s'.all && s'.all[id].phase == Deregistered
    ensures s.all[id].phase in {Recorded, Deregistered}
  {
    hide Happen, Enabled, JobInv;
    if x, e :| x in s.all && Enabled(s.all[x], e) && s' == Update(s, x, Happen(s.all[x], e)) {
      EventKeepsJobInv(s.all[x], e);
    }
  }

  lemma JobInvOf(s: State, id: JobId)
    requires Inv(s) && id in s.all
    ensures JobInv(s.all[id])
  {
  }

  lemma NextKeepsBound(s: State, s': State, id: JobId)
    requires Inv(s) && Next(s, s') && id in s.all && BoundToCancel(s.all[id])
    ensures Inv(s') && id in s'.all && BoundToCancel(s'.all[id])
  {
    hide Inv, Next, BoundToCancel, JobSteps;
    NextKeepsInv(s, s');
    NextOfJob(s, s', id);
    if s'.all[id].phase == Deregistered {
      DeregisteredAfterRecorded(s, s', id);
    }
    JobInvOf(s, id);
    StepKeepsBound(s.all[id], s'.all[id]);
  }

  lemma {:induction false} PathKeepsBound(s: State, path: seq<State>, id: JobId)
    requires Inv(s) && Leads(s, path) && id in s.all && BoundToCancel(s.all[id])
    ensures var end := path[|path| - 1]; Inv(end) && id in end.all && BoundToCancel(end.all[id])
    decreases |path|
  {
    hide Inv, Next, BoundToCancel;
    var n := |path| - 1;
    if n > 0 {
      PathKeepsBound(s, path[..n], id);
      assert Next(path[n - 1], path[n - 1 + 1]);
      NextKeepsBound(path[n - 1], path[n], id);
    }
  }

  /** Along every path from `s`, job `id` ends as cancelled if it ends. */
  ghost predicate EndsCancelled(s: State, id: JobId) {
    forall path: seq<State> :: Leads(s, path) ==> CancelledIfEnded(path[|path| - 1], id)
  }

  predicate CancelledIfEnded(s: State, id: JobId) {
    id in s.all && (s.all[id].finished.Some? ==> s.all[id].status == Cancelled)
  }

  /** A job that is not bound to end as cancelled can end otherwise, at most two steps on. */
  lemma EscapesCancel(s: State, id: JobId) returns (path: seq<State>)
    requires Inv(s) && id in s.all && s.all[id].cancelRequested && !BoundToCancel(s.all[id])
    ensures Leads(s, path)
    ensures var end := path[|path| - 1];
            id in end.all && end.all[id].finished.Some? && end.all[id].status == Exited
  {
    hide Workers;
    var j := s.all[id];
    JobInvOf(s, id);
    path := [s];
    if j.phase.Deciding? {
      assert Enabled(j, Chooses(false));
      var s1 := Update(s, id, Happen(j, Chooses(false)));
      assert s1.all[id].phase == Reporting(Exited, false, false);
      assert Enabled(s1.all[id], Records(0));
      var s2 := Update(s1, id, Happen(s1.all[id], Records(0)));
      assert Next(s, s1) && Next(s1, s2);
      path := [s, s1, s2];
    } else if j.phase.Reporting? {
      assert Enabled(j, Records(0));
      var s1 := Update(s, id, Happen(j, Records(0)));
      assert Next(s, s1);
      path := [s, s1];
    }
  }

  /** A recorded cancellation makes the job end as cancelled, whatever process, deadline and other
      callers do, if and only if the job is bound to by then. */
  lemma CancelIsHonouredExactly(s: State, id: JobId)
    requires Inv(s) && id in s.all && s.all[id].cancelRequested
    ensures EndsCancelled(s, id) <==> BoundToCancel(s.all[id])
  {
    hide Inv, Next, BoundToCancel;
    if BoundToCancel(s.all[id]) {
      forall path: seq<State> | Leads(s, path) ensures CancelledIfEnded(path[|path| - 1], id) {
        PathKeepsBound(s, path, id);
        BoundHasCancelled(path[|path| - 1], id);
      }
    } else {
      var path := EscapesCancel(s, id);
    }
  }

  lemma BoundHasCancelled(s: State, id: JobId)
    requires Inv(s) && id in s.all && BoundToCancel(s.all[id])
    ensures CancelledIfEnded(s, id)
  {
    JobInvOf(s, id);
    hide Inv;
  }

  /** In particular when it was recorded before the worker has looked for one. */
  lemma CancelInTimeIsHonoured(run: seq<State>, id: JobId)
    requires IsRun(run)
    requires var s := run[|run| - 1];
             id in s.all && s.all[id].cancelRequested
             && (s.all[id].phase.Executing? || s.all[id].phase.Killed? || s.all[id].phase.Reaped?)
    ensures EndsCancelled(run[|run| - 1], id)
  {
    hide Next, Leads, EndsCancelled, Inv;
    RunKeepsInv(run, |run| - 1);
    CancelIsHonouredExactly(run[|run| - 1], id);
  }

  /** A registry with one job, which has left nothing else behind. */
  function Alone(j: Job): State {
    State({0}, 1, map[0 := j], map[])
  }

  lemma EventIsNext(j: Job, e: Event)
    requires Enabled(j, e)
    ensures Next(Alone(j), Alone(Happen(j, e)))
  {
    hide Happen, Enabled;
    var s, j' := Alone(j), Happen(j, e);
    assert map[0 := j][0 := j'] == map[0 := j'];
    assert s.all[0] == j && Alone(j') == Update(s, 0, Happen(s.all[0], e));
    assert Next(s, Update(s, 0, Happen(s.all[0], e)));
  }

  lemma RegisterIsNext(s: State, id: JobId)
    requires id !in s.all
    ensures Next(s, Register(s, id))
  {
  }

  lemma FirstIsAlone()
    ensures Register(State({}, 0, map[], map[]), 0) == Alone(NEW_JOB)
  {
    var s := State({}, 0, map[], map[]);
    assert s.jobs + {0} == {0} && s.all[0 := NEW_JOB] == map[0 := NEW_JOB];
  }

  /** The job after its worker has looked, and after the cancellation it did not see. */
  const LOOKED := NEW_JOB.(phase := Deciding(false, false, false))
  const TOO_LATE := LOOKED.(cancelRequested := true, status := Cancelling)
  const ENDED := TOO_LATE.(status := Exited, timedOut := Some(false), finished := Some(0), phase := Recorded)

  lemma LookedIs()
    ensures Enabled(NEW_JOB, ProcessEnds(false)) && Enabled(Happen(NEW_JOB, ProcessEnds(false)), LooksForCancel)
    ensures Happen(Happen(NEW_JOB, ProcessEnds(false)), LooksForCancel) == LOOKED
    ensures Enabled(LOOKED, CancelRequested) && Happen(LOOKED, CancelRequested) == TOO_LATE
  {
  }

  lemma EndedIs()
    ensures Enabled(TOO_LATE, Chooses(false)) && Enabled(Happen(TOO_LATE, Chooses(false)), Records(0))
    ensures Happen(Happen(TOO_LATE, Chooses(false)), Records(0)) == ENDED
  {
  }

  /** A run in which the cancellation is recorded just after the look: the job ends as exited. */
  lemma LateCancelCanExit() returns (run: seq<State>)
    ensures IsRun(run) && |run| == 7
    ensures 0 in run[4].all && run[4].all[0].cancelRequested && run[4].all[0].finished.None?
    ensures 0 in run[6].all && run[6].all[0].finished.Some? && run[6].all[0].status == Exited
  {
    hide Next, Happen, Enabled;
    LookedIs();
    EndedIs();
    var none := State({}, 0, map[], map[]);
    RegisterIsNext(none, 0);
    FirstIsAlone();
    var ended, chosen := Happen(NEW_JOB, ProcessEnds(false)), Happen(TOO_LATE, Chooses(false));
    EventIsNext(NEW_JOB, ProcessEnds(false));
    EventIsNext(ended, LooksForCancel);
    EventIsNext(LOOKED, CancelRequested);
    EventIsNext(TOO_LATE, Chooses(false));
    EventIsNext(chosen, Records(0));
    run := [none, Alone(NEW_JOB), Alone(ended), Alone(LOOKED), Alone(TOO_LATE), Alone(chosen),
            Alone(ENDED)];
  }

  // ------------------------------------------------------------- what can happen

  /** A context ends once: by the cancellation or by the deadline, whichever comes first. */
  lemma ContextEndsOnce(j: Job)
    ensures Happen(j, DeadlinePasses) == j.(context := if j.context == Canceled then Canceled else Expired)
    ensures j.cancelRequested ==>
              Enabled(j, ContextCanceled)
              && Happen(j, ContextCanceled) == j.(context := if j.context == Expired then Expired else Canceled)
  {
  }

  /** A job whose deadline passes, and which is killed for it, ends as timed out. */
  const EXPIRED := NEW_JOB.(context := Expired)
  const KILLED := EXPIRED.(phase := Killed)
  const REAPED := KILLED.(phase := Reaped(true, false))
  const DECIDING := REAPED.(phase := Deciding(true, false, false))
  const LATE := DECIDING.(status := TimedOut, timedOut := Some(true), finished := Some(0), phase := Recorded)

  lemma LateIs()
    ensures Enabled(NEW_JOB, DeadlinePasses) && Happen(NEW_JOB, DeadlinePasses) == EXPIRED
    ensures Enabled(EXPIRED, SeesContextDone) && Happen(EXPIRED, SeesContextDone) == KILLED
    ensures Enabled(KILLED, ProcessEnds(false)) && Happen(KILLED, ProcessEnds(false)) == REAPED
    ensures Enabled(REAPED, LooksForCancel) && Happen(REAPED, LooksForCancel) == DECIDING
    ensures Enabled(DECIDING, Chooses(false)) && Enabled(Happen(DECIDING, Chooses(false)), Records(0))
    ensures Happen(Happen(DECIDING, Chooses(false)), Records(0)) == LATE
  {
  }

  /** A run in which that happens. */
  lemma JobCanTimeOut() returns (run: seq<State>)
    ensures IsRun(run)
    ensures run[|run| - 1] == Alone(LATE)
  {
    hide Next, Happen, Enabled;
    LateIs();
    var none := State({}, 0, map[], map[]);
    RegisterIsNext(none, 0);
    FirstIsAlone();
    var chosen := Happen(DECIDING, Chooses(false));
    EventIsNext(NEW_JOB, DeadlinePasses);
    EventIsNext(EXPIRED, SeesContextDone);
    EventIsNext(KILLED, ProcessEnds(false));
    EventIsNext(REAPED, LooksForCancel);
    EventIsNext(DECIDING, Chooses(false));
    EventIsNext(chosen, Records(0));
    run := [
      none, Alone(NEW_JOB), Alone(EXPIRED), Alone(KILLED), Alone(REAPED), Alone(DECIDING), Alone(chosen), Alone(LATE)];
  }

  /** From any state a worker that has recorded its outcome can leave the count, and then a pruning
      pass can drop the job once it has been finished for longer than an hour; an hour is not enough. */
  lemma FinishedJobsCanBePruned(s: State, id: JobId, p: PruneId, now: int) returns (path: seq<State>)
    requires Inv(s) && id in s.jobs && s.all[id].phase == Recorded && p !in s.prunes
    ensures Leads(s, path)
    ensures var end := path[|path| - 1];
            && end.active == s.active - 1 && end.all.Keys == s.all.Keys
            && end.jobs == if now > s.all[id].finished.value + 3600 then s.jobs - {id} else s.jobs
  {
    hide Inv, Next, Deregister, BeginPrune, CheckExpired, EndPrune;
    LeavesTheCount(s, id);
    var a := Deregister(s, id);
    PassIs(a, p, id, now);
    var b := BeginPrune(a, p, now);
    var c := CheckExpired(b, p, id);
    DeregisterIsNext(s, id);
    PruneIsNext(a, p, now);
    CheckIsNext(b, p, id);
    EndIsNext(c, p);
    path := [s, a, b, c, EndPrune(c, p)];
  }

  lemma LeavesTheCount(s: State, id: JobId)
    requires Inv(s) && id in s.jobs && s.all[id].phase == Recorded
    ensures id in s.all && s.all[id].finished.Some?
    ensures var a := Deregister(s, id);
            && a.active == s.active - 1 && a.jobs == s.jobs && a.prunes == s.prunes && a.all.Keys == s.all.Keys
            && a.all[id].finished == s.all[id].finished
  {
    hide Workers, JobInv, Deregister;
    JobInvOf(s, id);
    RecordedIsFinished(s.all[id]);
    DeregisterKeepsInv(s, id);
    DeregisterIs(s, id);
  }

  lemma RecordedIsFinished(j: Job)
    requires JobInv(j) && j.phase == Recorded
    ensures j.finished.Some?
  {
  }

  lemma DeregisterIs(s: State, id: JobId)
    requires id in s.all && s.active > 0
    ensures var a := Deregister(s, id);
            && a.active == s.active - 1 && a.jobs == s.jobs && a.prunes == s.prunes && a.all.Keys == s.all.Keys
            && a.all[id].finished == s.all[id].finished
  {
  }

  /** One pass that looks at one job. */
  lemma PassIs(s: State, p: PruneId, id: JobId, now: int)
    requires id in s.jobs && id in s.all && s.all[id].finished.Some? && p !in s.prunes
    ensures var b := BeginPrune(s, p, now);
            && p in b.prunes && id in b.prunes[p].seen && id in b.all
            && p in CheckExpired(b, p, id).prunes
            && var d := EndPrune(CheckExpired(b, p, id), p);
            && d.active == s.active && d.all == s.all
            && d.jobs == if now > s.all[id].finished.value + 3600 then s.jobs - {id} else s.jobs
  {
  }

  lemma DeregisterIsNext(s: State, id: JobId)
    requires id in s.all && s.all[id].phase == Recorded
    ensures Next(s, Deregister(s, id))
  {
    hide Deregister;
  }

  lemma PruneIsNext(s: State, p: PruneId, now: int)
    requires p !in s.prunes
    ensures Next(s, BeginPrune(s, p, now))
  {
    hide BeginPrune;
  }

  lemma CheckIsNext(s: State, p: PruneId, id: JobId)
    requires p in s.prunes && id in s.prunes[p].seen && id in s.all
    ensures Next(s, CheckExpired(s, p, id))
  {
    hide CheckExpired;
  }

  lemma EndIsNext(s: State, p: PruneId)
    requires p in s.prunes
    ensures Next(s, EndPrune(s, p))
  {
    hide EndPrune;
  }
}
