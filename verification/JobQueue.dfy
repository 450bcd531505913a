/** The durable job queue of db.rs: enqueueing, leasing, retrying. Times are
    milliseconds supplied by the caller's clock, in no particular order. */
module JobQueue {
  import opened Core

  datatype Status = Queued | Running | Ready | Failed | Superseded

  datatype Job = Job(
    kind: string, payload: string, status: Status, error: Option<string>, attempt: int, maxAttempts: int,
    leaseUntil: Option<int>, nextRetryAt: Option<int>, createdAt: int, updatedAt: int)

  type Jobs = map<string, Job>

  datatype JobLease = JobLease(key: string, kind: string, payload: string, attempt: int, maxAttempts: int)

  const DEFAULT_MAX_ATTEMPTS := 3
  const EMPTY_PAYLOAD := "{}"

  // ---- Statements, as functions of the table

  function Reset(job: Job, kind: string, payload: string, now: int): Job {
    job.(status := Queued, kind := kind, payload := payload, error := None, attempt := 0,
         leaseUntil := None, nextRetryAt := None, updatedAt := now)
  }

  predicate Reenqueueable(job: Job, force: bool) {
    job.status.Failed? || job.status.Superseded? || (force && job.status.Ready?)
  }

  function Enqueue(jobs: Jobs, key: string, kind: string, payload: string, force: bool, now: int): (Jobs, bool) {
    if key !in jobs then
      (jobs[key := Job(kind, payload, Queued, None, 0, DEFAULT_MAX_ATTEMPTS, None, None, now, now)], true)
    else if Reenqueueable(jobs[key], force) then (jobs[key := Reset(jobs[key], kind, payload, now)], true)
    else (jobs, false)
  }

  /** A comparison with an absent time is never true. */
  predicate Eligible(job: Job, now: int) {
    || (job.status.Queued? && (job.nextRetryAt.None? || job.nextRetryAt.value <= now))
    || (job.status.Running? && job.leaseUntil.Some? && job.leaseUntil.value <= now)
  }

  function DueAt(job: Job): int {
    if job.nextRetryAt.Some? then job.nextRetryAt.value else job.createdAt
  }

  /** `ORDER BY` of the claim: queued before expired, then due time, then age. */
  predicate Before(a: Job, b: Job) {
    if a.status.Queued? != b.status.Queued? then a.status.Queued?
    else if DueAt(a) != DueAt(b) then DueAt(a) < DueAt(b)
    else a.createdAt < b.createdAt
  }

  predicate Claimable(jobs: Jobs, key: string, now: int) {
    && key in jobs && Eligible(jobs[key], now)
    && forall k :: k in jobs && Eligible(jobs[k], now) ==> !Before(jobs[k], jobs[key])
  }

  function Leased(job: Job, leaseSeconds: int, now: int): Job {
    job.(status := Running, attempt := job.attempt + 1, leaseUntil := Some(now + 1000 * leaseSeconds), updatedAt := now)
  }

  predicate Holds(jobs: Jobs, key: string, attempt: int) {
    key in jobs && jobs[key].attempt == attempt && jobs[key].status.Running?
  }

  function Extend(jobs: Jobs, key: string, attempt: int, leaseSeconds: int, now: int): Jobs {
    if Holds(jobs, key, attempt) then jobs[key := jobs[key].(leaseUntil := Some(now + 1000 * leaseSeconds))] else jobs
  }

  function Finish(jobs: Jobs, key: string, attempt: int, status: Status, error: Option<string>, now: int): Jobs {
    if Holds(jobs, key, attempt)
    then jobs[key := jobs[key].(status := status, error := error, leaseUntil := None, nextRetryAt := None, updatedAt := now)]
    else jobs
  }

  function Failure(job: Job, summary: string, delaySeconds: int, now: int): Job {
    var last := job.attempt >= job.maxAttempts;
    job.(status := if last then Failed else Queued, error := Some(summary), leaseUntil := None,
         nextRetryAt := if last then None else Some(now + 1000 * (if delaySeconds > 0 then delaySeconds else 0)),
         updatedAt := now)
  }

  function RecordFailure(jobs: Jobs, key: string, attempt: int, summary: string, delaySeconds: int, now: int): Jobs {
    if Holds(jobs, key, attempt) then jobs[key := Failure(jobs[key], summary, delaySeconds, now)] else jobs
  }

  function SupersedeReady(jobs: Jobs, key: string, now: int): Jobs {
    if key in jobs && jobs[key].status.Ready?
    then jobs[key := jobs[key].(status := Superseded, leaseUntil := None, nextRetryAt := None, updatedAt := now)]
    else jobs
  }

  /** The three `retry_failed_*` statements differ only in which rows they cover. */
  datatype Scope = AllJobs | OneJob(key: string) | OfKind(kind: string)

  predicate InScope(jobs: Jobs, key: string, scope: Scope)
    requires key in jobs
  {
    match scope
    case AllJobs => true
    case OneJob(one) => key == one
    case OfKind(kind) => jobs[key].kind == kind
  }

  predicate Retryable(jobs: Jobs, key: string, scope: Scope) {
    && key in jobs && jobs[key].status.Failed? && jobs[key].payload != EMPTY_PAYLOAD
    && InScope(jobs, key, scope)
  }

  function RetryFailed(jobs: Jobs, scope: Scope, now: int): Jobs {
    map k | k in jobs :: if Retryable(jobs, k, scope) then Reset(jobs[k], jobs[k].kind, jobs[k].payload, now) else jobs[k]
  }

  // ---- What resets mean

  /** The job is due at once with its whole budget, and nobody holds it. */
  ghost predicate Afresh(jobs: Jobs, key: string, now: int) {
    && key in jobs && jobs[key].status.Queued? && jobs[key].attempt == 0 && jobs[key].error.None?
    && Eligible(jobs[key], now)
    && forall attempt :: !Holds(jobs, key, attempt)
  }

  /** Enqueueing starts the job afresh, revoking every lease, unless it is queued, running
      or ready and not forced; then nothing changes. Other jobs are never touched, and
      enqueueing once more without force does nothing. */
  lemma EnqueueExact(jobs: Jobs, key: string, kind: string, payload: string, force: bool, now: int, later: int)
    ensures var (after, changed) := Enqueue(jobs, key, kind, payload, force, now);
            && (changed <==> key in jobs ==> jobs[key].status.Failed? || jobs[key].status.Superseded? || (force && jobs[key].status.Ready?))
            && (changed ==> Afresh(after, key, now)
                            && after[key] == Job(kind, payload, Queued, None, 0, if key in jobs then jobs[key].maxAttempts else 3, None, None,
                                                 if key in jobs then jobs[key].createdAt else now, now))
            && (!changed ==> after == jobs)
            && after.Keys == jobs.Keys + {key} && (forall k :: k in jobs && k != key ==> after[k] == jobs[k])
            && (changed ==> Enqueue(after, key, kind, payload, false, later) == (after, false))
  {
  }

  /** Retrying starts every failed job in scope that has a payload afresh, and touches no
      other; afterwards none is left to retry. */
  lemma RetryExact(jobs: Jobs, scope: Scope, now: int, later: int)
    ensures var after := RetryFailed(jobs, scope, now);
            && after.Keys == jobs.Keys
            && (forall k :: k in jobs ==>
                  if jobs[k].status.Failed? && jobs[k].payload != "{}" && InScope(jobs, k, scope)
                  then && Afresh(after, k, now)
                       && after[k] == jobs[k].(status := Queued, error := None, attempt := 0, leaseUntil := None, nextRetryAt := None, updatedAt := now)
                  else after[k] == jobs[k])
            && (forall k :: !Retryable(after, k, scope))
            && RetryFailed(after, scope, later) == after
  {
    var after := RetryFailed(jobs, scope, now);
    assert forall k :: k in after ==> RetryFailed(after, scope, later)[k] == after[k];
  }

  // ---- What leases and closes mean

  /** A claimed job runs under the next attempt; nobody else can claim it before its lease
      expires, and anybody from then on. */
  lemma LeasedExact(job: Job, leaseSeconds: int, now: int)
    ensures var after := Leased(job, leaseSeconds, now);
            && after == job.(status := Running, attempt := job.attempt + 1, leaseUntil := after.leaseUntil, updatedAt := now)
            && forall later :: Eligible(after, later) <==> later >= now + 1000 * leaseSeconds
  {
  }

  /** An extension moves the expiry of the lease under the given attempt and nothing else. */
  lemma ExtendExact(jobs: Jobs, key: string, attempt: int, leaseSeconds: int, now: int)
    ensures var after := Extend(jobs, key, attempt, leaseSeconds, now);
            && after.Keys == jobs.Keys && (forall k :: k in jobs && k != key ==> after[k] == jobs[k])
            && if key in jobs && jobs[key].status.Running? && jobs[key].attempt == attempt
               then && after[key] == jobs[key].(leaseUntil := after[key].leaseUntil)
                    && forall later :: Eligible(after[key], later) <==> later >= now + 1000 * leaseSeconds
               else after == jobs
  {
  }

  /** A finished job has exactly the status and error given, and neither a lease nor a
      retry time; later calls under the same attempt do nothing. */
  lemma FinishExact(jobs: Jobs, key: string, attempt: int, status: Status, error: Option<string>, now: int)
    ensures var after := Finish(jobs, key, attempt, status, error, now);
            && after.Keys == jobs.Keys && (forall k :: k in jobs && k != key ==> after[k] == jobs[k])
            && if key in jobs && jobs[key].status.Running? && jobs[key].attempt == attempt
               then && after[key].status == status && after[key].error == error
                    && after[key].leaseUntil.None? && after[key].nextRetryAt.None?
                    && after[key] == jobs[key].(status := status, error := error, leaseUntil := None, nextRetryAt := None, updatedAt := now)
                    && (!status.Running? ==> forall a :: !Holds(after, key, a))
               else after == jobs
  {
  }

  /** A failed attempt keeps the summary. Below the maximum the job can be claimed again
      exactly once the delay is over; at the maximum it is failed and never can. */
  lemma FailureExact(jobs: Jobs, key: string, attempt: int, summary: string, delaySeconds: int, now: int)
    ensures var after := RecordFailure(jobs, key, attempt, summary, delaySeconds, now);
            && after.Keys == jobs.Keys && (forall k :: k in jobs && k != key ==> after[k] == jobs[k])
            && if key in jobs && jobs[key].status.Running? && jobs[key].attempt == attempt
               then && after[key] == jobs[key].(status := after[key].status, error := Some(summary), leaseUntil := None,
                                                nextRetryAt := after[key].nextRetryAt, updatedAt := now)
                    && (attempt < jobs[key].maxAttempts ==>
                          && after[key].status.Queued?
                          && forall later :: Eligible(after[key], later) <==> later >= now && later >= now + 1000 * delaySeconds)
                    && (attempt >= jobs[key].maxAttempts ==>
                          && after[key].status.Failed? && after[key].nextRetryAt.None?
                          && forall later :: !Eligible(after[key], later))
               else after == jobs
  {
  }

  /** Retiring concerns ready jobs alone, and leaves the error and attempt on record. */
  lemma SupersedeExact(jobs: Jobs, key: string, now: int)
    ensures var after := SupersedeReady(jobs, key, now);
            && after.Keys == jobs.Keys && (forall k :: k in jobs && k != key ==> after[k] == jobs[k])
            && if key in jobs && jobs[key].status.Ready?
               then && after[key].status.Superseded? && (forall later :: !Eligible(after[key], later))
                    && after[key] == jobs[key].(status := Superseded, leaseUntil := None, nextRetryAt := None, updatedAt := now)
               else after == jobs
  {
  }

  /** The claim in terms of the rows alone. A claimable job is queued and due, or runs
      under an expired lease and no queued job is due. Among the candidates of its status
      none has an earlier retry time, counting the creation time where there is none, and
      at equal times none is older. */
  lemma ClaimableExact(jobs: Jobs, key: string, now: int)
    ensures Claimable(jobs, key, now) <==>
              && key in jobs
              && var first := jobs[key];
                 && (first.status.Queued? || first.status.Running?)
                 && (first.status.Queued? ==> first.nextRetryAt.Some? ==> first.nextRetryAt.value <= now)
                 && (first.status.Running? ==>
                       && first.leaseUntil.Some? && first.leaseUntil.value <= now
                       && forall k :: k in jobs && jobs[k].status.Queued? ==> jobs[k].nextRetryAt.Some? && jobs[k].nextRetryAt.value > now)
                 && forall k :: k in jobs && jobs[k].status == first.status
                                && (if first.status.Queued? then jobs[k].nextRetryAt.Some? ==> jobs[k].nextRetryAt.value <= now
                                    else jobs[k].leaseUntil.Some? && jobs[k].leaseUntil.value <= now) ==>
                      var mine := if first.nextRetryAt.Some? then first.nextRetryAt.value else first.createdAt;
                      var other := if jobs[k].nextRetryAt.Some? then jobs[k].nextRetryAt.value else jobs[k].createdAt;
                      mine < other || (mine == other && first.createdAt <= jobs[k].createdAt)
  {
  }

  /** The rows once all but those in `todo` have been visited, and those reset by then. */
  ghost function PartlyRetried(jobs: Jobs, scope: Scope, now: int, todo: set<string>): Jobs {
    map k | k in jobs :: if k in todo then jobs[k] else RetryFailed(jobs, scope, now)[k]
  }

  ghost function Retried(jobs: Jobs, scope: Scope, todo: set<string>): set<string> {
    set k | k in jobs && Retryable(jobs, k, scope) && k !in todo
  }

  lemma NothingRetried(jobs: Jobs, scope: Scope, now: int)
    ensures PartlyRetried(jobs, scope, now, jobs.Keys) == jobs && Retried(jobs, scope, jobs.Keys) == {}
  {
  }

  lemma AllRetried(jobs: Jobs, scope: Scope, now: int)
    ensures PartlyRetried(jobs, scope, now, {}) == RetryFailed(jobs, scope, now)
    ensures Retried(jobs, scope, {}) == set k | k in jobs && Retryable(jobs, k, scope)
  {
  }

  lemma RetryOne(jobs: Jobs, scope: Scope, now: int, todo: set<string>, k: string)
    requires k in todo && todo <= jobs.Keys
    ensures var part := PartlyRetried(jobs, scope, now, todo);
            && k in part && part[k] == jobs[k] && (Retryable(part, k, scope) <==> Retryable(jobs, k, scope))
            && PartlyRetried(jobs, scope, now, todo - {k})
               == (if Retryable(jobs, k, scope) then part[k := Reset(jobs[k], jobs[k].kind, jobs[k].payload, now)] else part)
  {
    var part := PartlyRetried(jobs, scope, now, todo);
    assert RetryFailed(jobs, scope, now)[k]
        == if Retryable(jobs, k, scope) then Reset(jobs[k], jobs[k].kind, jobs[k].payload, now) else jobs[k];
    hide RetryFailed, Reset;
    assert PartlyRetried(jobs, scope, now, todo - {k}) == part[k := RetryFailed(jobs, scope, now)[k]];
    assert part[k := jobs[k]] == part;
  }

  lemma CountOne(jobs: Jobs, scope: Scope, todo: set<string>, k: string)
    requires k in todo && todo <= jobs.Keys
    ensures |Retried(jobs, scope, todo - {k})| == |Retried(jobs, scope, todo)| + if Retryable(jobs, k, scope) then 1 else 0
  {
    hide Retryable;
    assert Retried(jobs, scope, todo - {k}) == Retried(jobs, scope, todo) + if Retryable(jobs, k, scope) then {k} else {};
  }

  // ---- The claim order has a minimum

  lemma BeforeIsAStrictOrder(a: Job, b: Job, c: Job)
    ensures !Before(a, a)
    ensures Before(a, b) && Before(b, c) ==> Before(a, c)
    ensures Before(a, b) ==> Before(a, c) || Before(c, b)
  {
  }

  lemma {:induction false} FirstExists(jobs: Jobs, keys: set<string>, now: int) returns (first: string)
    requires keys != {} && forall k :: k in keys ==> k in jobs
    ensures first in keys && forall k :: k in keys ==> !Before(jobs[k], jobs[first])
  {
    var k :| k in keys;
    if keys == {k} {
      first := k;
    } else {
      var other := FirstExists(jobs, keys - {k}, now);
      first := if Before(jobs[k], jobs[other]) then k else other;
      forall j | j in keys ensures !Before(jobs[j], jobs[first]) {
        BeforeIsAStrictOrder(jobs[k], jobs[other], jobs[j]);
        BeforeIsAStrictOrder(jobs[j], jobs[k], jobs[other]);
        if j != k { assert j in keys - {k}; }
      }
    }
  }

  lemma SomethingIsClaimable(jobs: Jobs, now: int)
    requires exists k :: k in jobs && Eligible(jobs[k], now)
    ensures exists k :: Claimable(jobs, k, now)
  {
    var eligible := set k | k in jobs && Eligible(jobs[k], now);
    var some :| some in jobs && Eligible(jobs[some], now);
    assert some in eligible;
    var first := FirstExists(jobs, eligible, now);
    assert forall k :: k in jobs && Eligible(jobs[k], now) ==> k in eligible;
    assert Claimable(jobs, first, now);
  }

  // ---- The mutable queue

  class Queue {
    var jobs: Jobs

    constructor ()
      ensures jobs == map[]
    {
      jobs := map[];
    }

    method EnqueueJob(key: string, kind: string, payload: string, force: bool, now: int) returns (changed: bool)
      modifies this
      ensures (jobs, changed) == Enqueue(old(jobs), key, kind, payload, force, now)
    {
      if key !in jobs {
        jobs := jobs[key := Job(kind, payload, Queued, None, 0, DEFAULT_MAX_ATTEMPTS, None, None, now, now)];
        return true;
      }
      if !Reenqueueable(jobs[key], force) {
        return false;
      }
      jobs := jobs[key := Reset(jobs[key], kind, payload, now)];
      return true;
    }

    /** Claims a first job in claim order; returns none exactly when no queued job
        is due and no running lease has expired. Ties are broken arbitrarily. */
    method ClaimNextJob(leaseSeconds: int, now: int) returns (r: Option<JobLease>)
      modifies this
      ensures r.None? <==> forall k :: k in old(jobs) ==>
                var job := old(jobs)[k];
                && (job.status.Queued? ==> job.nextRetryAt.Some? && job.nextRetryAt.value > now)
                && (job.status.Running? ==> job.leaseUntil.None? || job.leaseUntil.value > now)
      ensures r.None? ==> jobs == old(jobs)
      ensures r.Some? ==>
                var key := r.value.key;
                && Claimable(old(jobs), key, now)
                && jobs == old(jobs)[key := Leased(old(jobs)[key], leaseSeconds, now)]
                && r.value == JobLease(key, jobs[key].kind, jobs[key].payload, jobs[key].attempt, jobs[key].maxAttempts)
    {
      if forall k :: k in jobs ==> !Eligible(jobs[k], now) {
        return None;
      }
      SomethingIsClaimable(jobs, now);
      var key :| key in jobs && Claimable(jobs, key, now);
      jobs := jobs[key := Leased(jobs[key], leaseSeconds, now)];
      return Some(JobLease(key, jobs[key].kind, jobs[key].payload, jobs[key].attempt, jobs[key].maxAttempts));
    }

    method ExtendJobLease(key: string, attempt: int, leaseSeconds: int, now: int) returns (changed: bool)
      modifies this
      ensures changed <==> Holds(old(jobs), key, attempt)
      ensures jobs == Extend(old(jobs), key, attempt, leaseSeconds, now)
    {
      changed := Holds(jobs, key, attempt);
      if changed {
        jobs := jobs[key := jobs[key].(leaseUntil := Some(now + 1000 * leaseSeconds))];
      }
    }

    method FinishJob(key: string, attempt: int, status: Status, error: Option<string>, now: int) returns (changed: bool)
      modifies this
      ensures changed <==> Holds(old(jobs), key, attempt)
      ensures jobs == Finish(old(jobs), key, attempt, status, error, now)
    {
      changed := Holds(jobs, key, attempt);
      if changed {
        jobs := jobs[key := jobs[key].(status := status, error := error, leaseUntil := None, nextRetryAt := None, updatedAt := now)];
      }
    }

    method RecordJobFailure(key: string, attempt: int, summary: string, delaySeconds: int, now: int) returns (changed: bool)
      modifies this
      ensures changed <==> Holds(old(jobs), key, attempt)
      ensures jobs == RecordFailure(old(jobs), key, attempt, summary, delaySeconds, now)
    {
      changed := Holds(jobs, key, attempt);
      if changed {
        jobs := jobs[key := Failure(jobs[key], summary, delaySeconds, now)];
      }
    }

    method SupersedeReadyJob(key: string, now: int) returns (changed: bool)
      modifies this
      ensures changed <==> key in old(jobs) && old(jobs)[key].status.Ready?
      ensures jobs == SupersedeReady(old(jobs), key, now)
    {
      changed := key in jobs && jobs[key].status.Ready?;
      if changed {
        jobs := jobs[key := jobs[key].(status := Superseded, leaseUntil := None, nextRetryAt := None, updatedAt := now)];
      }
    }

    /** `retry_failed_*`: the rows affected are counted. */
    method RetryFailedJobs(scope: Scope, now: int) returns (count: nat)
      modifies this
      ensures jobs == RetryFailed(old(jobs), scope, now)
      ensures count == |set k | k in old(jobs) && Retryable(old(jobs), k, scope)|
    {
      hide RetryFailed, Retryable, PartlyRetried, Retried;
      count := 0;
      var todo := jobs.Keys;
      ghost var before := jobs;
      NothingRetried(before, scope, now);
      while todo != {}
        invariant todo <= before.Keys && jobs == PartlyRetried(before, scope, now, todo)
        invariant count == |Retried(before, scope, todo)|
        decreases todo
      {
        var k :| k in todo;
        RetryOne(before, scope, now, todo, k);
        CountOne(before, scope, todo, k);
        if Retryable(jobs, k, scope) {
          jobs := jobs[k := Reset(jobs[k], jobs[k].kind, jobs[k].payload, now)];
          count := count + 1;
        }
        todo := todo - {k};
      }
      AllRetried(before, scope, now);
    }
  }
}
