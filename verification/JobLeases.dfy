/** Attempt numbers as fencing tokens, over every sequence of queue operations by
    any number of workers, with leases expiring at arbitrary times. */
module JobLeases {
  import opened Core
  import opened JobQueue

  /** A generation begins whenever an existing job's attempt counter is reset. */
  datatype Lease = Lease(key: string, gen: nat, attempt: int)

  /** What happened to which lease. `holder` is the lease the caller believed in. */
  datatype Entry =
    | Claimed(lease: Lease)
    | Extended(lease: Lease, holder: Lease)
    | Finished(lease: Lease, holder: Lease)
    | FailureRecorded(lease: Lease, holder: Lease, terminal: bool)

  /** The table, the generation of every job, and the history so far. */
  datatype State = State(jobs: Jobs, gens: map<string, nat>, log: seq<Entry>)

  datatype Event =
    | EnqueueJob(key: string, kind: string, payload: string, force: bool, now: int)
    | Claim(key: string, leaseSeconds: int, now: int)
    | ExtendLease(holder: Lease, leaseSeconds: int, now: int)
    | FinishJob(holder: Lease, status: Status, error: Option<string>, now: int)
    | RecordJobFailure(holder: Lease, summary: string, delaySeconds: int, now: int)
    | SupersedeReadyJob(key: string, now: int)
    | Retry(scope: Scope, now: int)

  const INIT := State(map[], map[], [])

  function CurrentLease(s: State, key: string): Lease
    requires key in s.jobs && key in s.gens
  {
    Lease(key, s.gens[key], s.jobs[key].attempt)
  }

  /** The statuses callers finish jobs with. */
  predicate Terminal(status: Status) {
    status.Ready? || status.Failed? || status.Superseded?
  }

  predicate Aligned(s: State) {
    s.gens.Keys == s.jobs.Keys
  }

  function Next(s: State, e: Event): (after: State)
    requires Aligned(s)
    ensures Aligned(after)
  {
    match e
    case EnqueueJob(key, kind, payload, force, now) =>
      var (jobs, changed) := Enqueue(s.jobs, key, kind, payload, force, now);
      if !changed then s
      else s.(jobs := jobs, gens := s.gens[key := if key in s.jobs then s.gens[key] + 1 else 0])
    case Claim(key, leaseSeconds, now) =>
      if !Claimable(s.jobs, key, now) then s
      else
        var after := s.(jobs := s.jobs[key := Leased(s.jobs[key], leaseSeconds, now)]);
        after.(log := s.log + [Claimed(CurrentLease(after, key))])
    case ExtendLease(holder, leaseSeconds, now) =>
      if !Holds(s.jobs, holder.key, holder.attempt) then s
      else s.(jobs := Extend(s.jobs, holder.key, holder.attempt, leaseSeconds, now),
              log := s.log + [Extended(CurrentLease(s, holder.key), holder)])
    case FinishJob(holder, status, error, now) =>
      if !Terminal(status) || !Holds(s.jobs, holder.key, holder.attempt) then s
      else s.(jobs := Finish(s.jobs, holder.key, holder.attempt, status, error, now),
              log := s.log + [Finished(CurrentLease(s, holder.key), holder)])
    case RecordJobFailure(holder, summary, delay, now) =>
      if !Holds(s.jobs, holder.key, holder.attempt) then s
      else s.(jobs := RecordFailure(s.jobs, holder.key, holder.attempt, summary, delay, now),
              log := s.log + [FailureRecorded(CurrentLease(s, holder.key), holder,
                                              s.jobs[holder.key].attempt >= s.jobs[holder.key].maxAttempts)])
    case SupersedeReadyJob(key, now) =>
      s.(jobs := SupersedeReady(s.jobs, key, now))
    case Retry(scope, now) =>
      s.(jobs := RetryFailed(s.jobs, scope, now),
         gens := map k | k in s.gens :: if Retryable(s.jobs, k, scope) then s.gens[k] + 1 else s.gens[k])
  }

  function Run(es: seq<Event>): (s: State)
    ensures Aligned(s)
  {
    if es == [] then INIT else Next(Run(es[..|es| - 1]), es[|es| - 1])
  }

  // ---- The invariant

  predicate Closes(entry: Entry) {
    entry.Finished? || entry.FailureRecorded?
  }

  /** No later claim of the same job had been made. */
  predicate NotAfter(a: Lease, b: Lease) {
    a.key == b.key ==> a.gen < b.gen || (a.gen == b.gen && a.attempt <= b.attempt)
  }

  predicate LogOk(log: seq<Entry>) {
    && (forall i, j :: 0 <= i < j < |log| && log[i].Claimed? && log[j].Claimed? ==> log[i].lease != log[j].lease)
    && (forall i, j :: 0 <= i < j < |log| ==> NotAfter(log[i].lease, log[j].lease))
    && (forall i :: 0 <= i < |log| && !log[i].Claimed? ==>
          && log[i].holder.key == log[i].lease.key && log[i].holder.attempt == log[i].lease.attempt
          && Claimed(log[i].lease) in log[..i])
    && (forall i, j :: 0 <= i < j < |log| && Closes(log[i]) ==> log[j].lease != log[i].lease)
  }

  predicate RowOk(s: State, key: string)
    requires Aligned(s) && key in s.jobs
  {
    var job := s.jobs[key];
    && job.attempt >= 0 && job.maxAttempts == DEFAULT_MAX_ATTEMPTS
    && (forall i :: 0 <= i < |s.log| ==> NotAfter(s.log[i].lease, CurrentLease(s, key)))
    && (job.status.Running? ==>
          && Claimed(CurrentLease(s, key)) in s.log
          && forall i :: 0 <= i < |s.log| && Closes(s.log[i]) ==> s.log[i].lease != CurrentLease(s, key))
  }

  predicate Inv(s: State) {
    && Aligned(s) && LogOk(s.log)
    && (forall key :: key in s.jobs ==> RowOk(s, key))
    && (forall i :: 0 <= i < |s.log| ==> s.log[i].lease.key in s.jobs)
  }

  lemma AppendKeepsLog(log: seq<Entry>, entry: Entry)
    requires LogOk(log)
    requires forall i :: 0 <= i < |log| ==> NotAfter(log[i].lease, entry.lease)
    requires entry.Claimed? ==> forall i :: 0 <= i < |log| ==> log[i].lease != entry.lease
    requires forall i :: 0 <= i < |log| && Closes(log[i]) ==> log[i].lease != entry.lease
    requires !entry.Claimed? ==> entry.holder.key == entry.lease.key && entry.holder.attempt == entry.lease.attempt
                                 && Claimed(entry.lease) in log
    ensures LogOk(log + [entry])
  {
    var after := log + [entry];
    forall i | 0 <= i < |after| && !after[i].Claimed?
      ensures Claimed(after[i].lease) in after[..i]
    {
      assert after[..i] == log[..i];
      assert log[..|log|] == log;
    }
  }

  lemma OtherRowsAreKept(s: State, after: State, key: string)
    requires Aligned(s) && Aligned(after) && key in s.jobs && RowOk(s, key)
    requires key in after.jobs && after.jobs[key] == s.jobs[key] && after.gens[key] == s.gens[key]
    requires after.log == s.log || (|after.log| == |s.log| + 1 && after.log[..|s.log|] == s.log && after.log[|s.log|].lease.key != key)
    ensures RowOk(after, key)
  {
    forall i | 0 <= i < |after.log|
      ensures NotAfter(after.log[i].lease, CurrentLease(after, key))
    {
      if i < |s.log| { assert after.log[i] == s.log[i]; }
    }
    forall i | 0 <= i < |after.log| && Closes(after.log[i]) && after.jobs[key].status.Running?
      ensures after.log[i].lease != CurrentLease(after, key)
    {
      if i < |s.log| { assert after.log[i] == s.log[i]; }
    }
  }

  /** A reset starts a generation above everything logged for the job. */
  lemma ResetRowIsOk(s: State, after: State, key: string)
    requires Inv(s) && Aligned(after) && key in after.jobs && after.log == s.log
    requires after.jobs[key].status.Queued? && after.jobs[key].attempt == 0 && after.jobs[key].maxAttempts == DEFAULT_MAX_ATTEMPTS
    requires if key in s.jobs then after.gens[key] == s.gens[key] + 1 else after.gens[key] == 0
    ensures RowOk(after, key)
  {
    forall i | 0 <= i < |s.log|
      ensures NotAfter(s.log[i].lease, CurrentLease(after, key))
    {
      if s.log[i].lease.key == key { assert NotAfter(s.log[i].lease, CurrentLease(s, key)); }
    }
  }

  lemma ClaimKeepsInv(s: State, key: string, leaseSeconds: int, now: int)
    requires Inv(s) && Claimable(s.jobs, key, now)
    ensures Inv(Next(s, Claim(key, leaseSeconds, now)))
  {
    var after := Next(s, Claim(key, leaseSeconds, now));
    var entry := Claimed(CurrentLease(after, key));
    forall i | 0 <= i < |s.log|
      ensures NotAfter(s.log[i].lease, entry.lease) && s.log[i].lease != entry.lease
    {
      assert NotAfter(s.log[i].lease, CurrentLease(s, key));
    }
    AppendKeepsLog(s.log, entry);
    forall k | k in after.jobs ensures RowOk(after, k) {
      if k != key { OtherRowsAreKept(s, after, k); }
    }
  }

  /** Extending or closing the current lease appends an entry for it. */
  lemma HeldKeepsInv(s: State, after: State, key: string, entry: Entry)
    requires Inv(s) && Aligned(after) && key in s.jobs && s.jobs[key].status.Running?
    requires !entry.Claimed? && entry.lease == CurrentLease(s, key)
    requires entry.holder.key == key && entry.holder.attempt == s.jobs[key].attempt
    requires after.log == s.log + [entry] && after.gens == s.gens && after.jobs.Keys == s.jobs.Keys
    requires forall k :: k in s.jobs && k != key ==> after.jobs[k] == s.jobs[k]
    requires after.jobs[key].attempt == s.jobs[key].attempt && after.jobs[key].maxAttempts == s.jobs[key].maxAttempts
    requires after.jobs[key].status.Running? ==> !Closes(entry)
    ensures Inv(after)
  {
    AppendKeepsLog(s.log, entry);
    forall k | k in after.jobs ensures RowOk(after, k) {
      if k != key { OtherRowsAreKept(s, after, k); }
    }
  }

  lemma {:induction false} NextKeepsInv(s: State, e: Event)
    requires Inv(s)
    ensures Inv(Next(s, e))
  {
    var after := Next(s, e);
    match e
    case Claim(key, leaseSeconds, now) =>
      if Claimable(s.jobs, key, now) { ClaimKeepsInv(s, key, leaseSeconds, now); }
    case ExtendLease(holder, _, _) =>
      if Holds(s.jobs, holder.key, holder.attempt) { HeldKeepsInv(s, after, holder.key, after.log[|s.log|]); }
    case FinishJob(holder, status, _, _) =>
      if Terminal(status) && Holds(s.jobs, holder.key, holder.attempt) { HeldKeepsInv(s, after, holder.key, after.log[|s.log|]); }
    case RecordJobFailure(holder, _, _, _) =>
      if Holds(s.jobs, holder.key, holder.attempt) { HeldKeepsInv(s, after, holder.key, after.log[|s.log|]); }
    case EnqueueJob(_, _, _, _, _) => EnqueueKeepsInv(s, e);
    case SupersedeReadyJob(_, _) => SupersedeKeepsInv(s, e);
    case Retry(_, _) => RetryKeepsInv(s, e);
  }

  lemma EnqueueKeepsInv(s: State, e: Event)
    requires Inv(s) && e.EnqueueJob?
    ensures Inv(Next(s, e))
  {
    var after := Next(s, e);
    forall k | k in after.jobs ensures RowOk(after, k) {
      if k in s.jobs && after.jobs[k] == s.jobs[k] && after.gens[k] == s.gens[k] { OtherRowsAreKept(s, after, k); }
      else { ResetRowIsOk(s, after, k); }
    }
  }

  lemma SupersedeKeepsInv(s: State, e: Event)
    requires Inv(s) && e.SupersedeReadyJob?
    ensures Inv(Next(s, e))
  {
    var after := Next(s, e);
    forall k | k in after.jobs ensures RowOk(after, k) {
      if after.jobs[k] == s.jobs[k] { OtherRowsAreKept(s, after, k); }
      else { assert RowOk(s, k); }
    }
  }

  lemma RetryKeepsInv(s: State, e: Event)
    requires Inv(s) && e.Retry?
    ensures Inv(Next(s, e))
  {
    var after := Next(s, e);
    forall k | k in after.jobs ensures RowOk(after, k) {
      if Retryable(s.jobs, k, e.scope) { assert RowOk(s, k); ResetRowIsOk(s, after, k); } else { OtherRowsAreKept(s, after, k); }
    }
  }

  lemma {:induction false} RunKeepsInv(es: seq<Event>)
    ensures Inv(Run(es))
  {
    if es != [] {
      RunKeepsInv(es[..|es| - 1]);
      NextKeepsInv(Run(es[..|es| - 1]), es[|es| - 1]);
    }
  }

  // ---- Fencing

  /** Within one generation of a job no attempt number is leased twice; every
      extension and every close concerns a lease claimed before, the newest one
      claimed so far; and after its close a lease appears in no entry again. */
  lemma LeasesAreFenced(es: seq<Event>, i: nat, j: nat)
    requires i < j < |Run(es).log|
    ensures var log := Run(es).log;
            && (log[i].Claimed? && log[j].Claimed? ==> log[i].lease != log[j].lease)
            && (!log[j].Claimed? ==> Claimed(log[j].lease) in log[..j])
            && (log[i].Claimed? && !log[j].Claimed? && log[i].lease.key == log[j].lease.key ==>
                  NotAfter(log[i].lease, log[j].lease))
            && (Closes(log[i]) ==> log[j].lease != log[i].lease)
  {
    RunKeepsInv(es);
  }

  predicate Uses(e: Event, holder: Lease) {
    || (e.ExtendLease? && e.holder == holder)
    || (e.FinishJob? && e.holder == holder && Terminal(e.status))
    || (e.RecordJobFailure? && e.holder == holder)
  }

  /** When a worker that did claim `holder` extends, finishes or fails it, the call
      takes effect exactly when the job is running under the same attempt number,
      and then it is that worker's own lease exactly when the job has not been
      reset since: the check compares attempts, not generations. */
  lemma UseIsExact(es: seq<Event>, e: Event, holder: Lease)
    requires Uses(e, holder) && Claimed(holder) in Run(es).log
    ensures var s, after := Run(es), Next(Run(es), e);
            && holder.key in s.jobs
            && (after.log != s.log <==> s.jobs[holder.key].status.Running? && s.jobs[holder.key].attempt == holder.attempt)
            && (after.log == s.log ==> after == s)
            && (after.log != s.log ==>
                  && |after.log| == |s.log| + 1 && after.log[|s.log|].lease == CurrentLease(s, holder.key)
                  && (after.log[|s.log|].lease == holder <==> holder.gen == s.gens[holder.key]))
  {
    RunKeepsInv(es);
    var s := Run(es);
    var i :| 0 <= i < |s.log| && s.log[i] == Claimed(holder);
    assert s.log[i].lease.key in s.jobs;
  }

  // ---- Leases and delays are kept

  /** The event is logged for a lease of this job. */
  predicate Concerns(s: State, e: Event, key: string)
    requires Aligned(s)
  {
    var log := Next(s, e).log;
    |log| > |s.log| && log[|log| - 1].lease.key == key
  }

  predicate Waiting(s: State, key: string) {
    key in s.jobs && (s.jobs[key].status.Queued? || s.jobs[key].status.Running?)
  }

  /** A queued or running job changes only by an event that is logged for it. */
  lemma WaitingStays(s: State, e: Event, key: string)
    requires Aligned(s) && Waiting(s, key)
    ensures key in Next(s, e).jobs
    ensures Next(s, e).jobs[key] == s.jobs[key] || Concerns(s, e, key)
  {
  }

  lemma Prefix(es: seq<Event>, i: nat)
    requires i < |es|
    ensures Run(es[..i + 1]) == Next(Run(es[..i]), es[i])
  {
    assert es[..i + 1][..i] == es[..i];
  }

  lemma {:induction false} UnconcernedStays(es: seq<Event>, i: nat, j: nat, key: string)
    requires i <= j <= |es| && Waiting(Run(es[..i]), key)
    requires forall k :: i <= k < j ==> !Concerns(Run(es[..k]), es[k], key)
    ensures key in Run(es[..j]).jobs && Run(es[..j]).jobs[key] == Run(es[..i]).jobs[key]
  {
    hide Run, Next, Concerns;
    if i < j {
      UnconcernedStays(es, i, j - 1, key);
      WaitingStays(Run(es[..j - 1]), es[j - 1], key);
      Prefix(es, j - 1);
    }
  }

  /** The event takes effect on the job and should keep other workers off it until then,
      by the clock of its caller: a claim, an extension, or a failure with attempts left. */
  predicate KeepsOff(s: State, e: Event, key: string, until: int)
    requires Aligned(s)
  {
    && Concerns(s, e, key)
    && match e
       case Claim(_, leaseSeconds, now) => until == now + 1000 * leaseSeconds
       case ExtendLease(_, leaseSeconds, now) => until == now + 1000 * leaseSeconds
       case RecordJobFailure(_, _, delaySeconds, now) =>
         && until == now + 1000 * (if delaySeconds < 0 then 0 else delaySeconds)
         && key in s.jobs && s.jobs[key].attempt < s.jobs[key].maxAttempts
       case _ => false
  }

  lemma KeepsOffUntil(s: State, e: Event, key: string, until: int)
    requires Aligned(s) && KeepsOff(s, e, key, until)
    ensures Waiting(Next(s, e), key)
    ensures forall later :: Eligible(Next(s, e).jobs[key], later) <==> later >= until
  {
  }

  lemma ConcernedClaim(s: State, e: Event, key: string)
    requires Aligned(s) && e.Claim? && Concerns(s, e, key)
    ensures key in s.jobs && Eligible(s.jobs[key], e.now)
  {
  }

  /** In every run, from a claim, an extension or a failure with attempts left to the next
      claim of the job, with nothing logged for it in between, the lease or the delay
      passes in full. */
  lemma {:induction false} LeasesAndDelaysAreKept(es: seq<Event>, i: nat, j: nat, key: string, until: int)
    requires i < j < |es| && KeepsOff(Run(es[..i]), es[i], key, until)
    requires es[j].Claim? && Concerns(Run(es[..j]), es[j], key)
    requires forall k :: i < k < j ==> !Concerns(Run(es[..k]), es[k], key)
    ensures es[j].now >= until
  {
    hide Run, Next, Concerns, KeepsOff, Eligible;
    Prefix(es, i);
    KeepsOffUntil(Run(es[..i]), es[i], key, until);
    UnconcernedStays(es, i + 1, j, key);
    ConcernedClaim(Run(es[..j]), es[j], key);
  }

  // ---- A reset counter reuses attempt numbers

  const SLOW := Lease("work", 0, 1)

  lemma OneJobIsClaimable(jobs: Jobs, key: string, now: int)
    requires jobs.Keys == {key} && Eligible(jobs[key], now)
    ensures Claimable(jobs, key, now)
  {
    assert forall k :: k in jobs ==> k in jobs.Keys;
  }

  lemma RunAppend(es: seq<Event>, e: Event)
    ensures Run(es + [e]) == Next(Run(es), e)
  {
    assert (es + [e])[..|es|] == es;
  }

  /** The lease every worker asks for, in seconds and in milliseconds. */
  const LEASE_SECONDS := 900
  const LEASE := 900_000

  /** The one job, its attempt and generation, free to be claimed at `now` unless leased. */
  predicate Work(s: State, status: Status, attempt: int, gen: nat, now: int) {
    && Aligned(s) && s.jobs.Keys == {"work"}
    && s.jobs["work"].status == status && s.jobs["work"].attempt == attempt && s.gens["work"] == gen
    && s.jobs["work"].maxAttempts == DEFAULT_MAX_ATTEMPTS && s.jobs["work"].payload == "payload"
    && (status.Queued? ==> s.jobs["work"].nextRetryAt.None? || s.jobs["work"].nextRetryAt.value <= now)
    && (status.Running? ==> s.jobs["work"].leaseUntil == Some(now))
  }

  lemma ClaimWork(s: State, status: Status, attempt: int, gen: nat, now: int)
    requires Work(s, status, attempt, gen, now) && (status.Queued? || status.Running?)
    ensures var after := Next(s, Claim("work", LEASE_SECONDS, now));
            && Work(after, Running, attempt + 1, gen, now + LEASE)
            && after.log == s.log + [Claimed(Lease("work", gen, attempt + 1))]
  {
    OneJobIsClaimable(s.jobs, "work", now);
  }

  lemma FailWork(s: State, attempt: int, gen: nat, until: int, delay: nat, now: int)
    requires Work(s, Running, attempt, gen, until)
    ensures var after := Next(s, RecordJobFailure(Lease("work", gen, attempt), "boom", delay, now));
            && Work(after, if attempt >= DEFAULT_MAX_ATTEMPTS then Failed else Queued, attempt, gen, now + 1000 * delay)
            && |after.log| > |s.log| && after.log[..|s.log|] == s.log
  {
  }

  lemma RetryWork(s: State, attempt: int, gen: nat, past: int, now: int)
    requires Work(s, Failed, attempt, gen, past)
    ensures var after := Next(s, Retry(AllJobs, now));
            Work(after, Queued, 0, gen + 1, now) && after.log == s.log
  {
  }

  lemma StepWork(es: seq<Event>, e: Event) returns (longer: seq<Event>)
    ensures longer == es + [e] && Run(longer) == Next(Run(es), e)
  {
    RunAppend(es, e);
    longer := es + [e];
  }

  lemma {:induction false} ClaimAttempt(es: seq<Event>, status: Status, attempt: int, gen: nat, now: int) returns (longer: seq<Event>)
    requires Work(Run(es), status, attempt, gen, now) && (status.Queued? || status.Running?)
    ensures longer == es + [Claim("work", LEASE_SECONDS, now)]
    ensures Work(Run(longer), Running, attempt + 1, gen, now + LEASE)
    ensures Run(longer).log == Run(es).log + [Claimed(Lease("work", gen, attempt + 1))]
  {
    hide Run, Next;
    ClaimWork(Run(es), status, attempt, gen, now);
    longer := StepWork(es, Claim("work", LEASE_SECONDS, now));
  }

  lemma {:induction false} FailAttempt(es: seq<Event>, attempt: int, until: int, delay: nat, now: int) returns (longer: seq<Event>)
    requires Work(Run(es), Running, attempt, 0, until) && Claimed(SLOW) in Run(es).log
    ensures longer == es + [RecordJobFailure(Lease("work", 0, attempt), "boom", delay, now)]
    ensures Work(Run(longer), if attempt >= DEFAULT_MAX_ATTEMPTS then Failed else Queued, attempt, 0, now + 1000 * delay)
    ensures Claimed(SLOW) in Run(longer).log
  {
    hide Run, Next;
    FailWork(Run(es), attempt, 0, until, delay, now);
    longer := StepWork(es, RecordJobFailure(Lease("work", 0, attempt), "boom", delay, now));
  }

  lemma Begins() returns (es: seq<Event>)
    ensures es == [EnqueueJob("work", "kind", "payload", false, 0)]
    ensures Work(Run(es), Queued, 0, 0, 0) && Run(es).log == []
  {
    es := [EnqueueJob("work", "kind", "payload", false, 0)];
    assert es == [] + es;
    RunAppend([], es[0]);
  }

  /** A worker stalls on attempt 1; its lease expires; attempts 2 and 3 fail elsewhere;
      the job is retried and leased again as attempt 1. Every lease is of 900 seconds and
      the clock only advances. */
  lemma {:induction false} StaleRun() returns (es: seq<Event>)
    ensures Work(Run(es), Running, 1, 1, 2_000_000 + LEASE)
    ensures Claimed(SLOW) in Run(es).log && Claimed(Lease("work", 1, 1)) in Run(es).log
  {
    hide Run, Next, Work;
    es := Begins();
    es := ClaimAttempt(es, Queued, 0, 0, 0);
    es := ClaimAttempt(es, Running, 1, 0, LEASE);
    es := FailAttempt(es, 2, 2 * LEASE, 30, 1_000_000);
    es := ClaimAttempt(es, Queued, 2, 0, 1_030_000);
    es := FailAttempt(es, 3, 1_030_000 + LEASE, 0, 1_100_000);
    RetryWork(Run(es), 3, 0, 1_100_000, 2_000_000);
    es := StepWork(es, Retry(AllJobs, 2_000_000));
    es := ClaimAttempt(es, Queued, 0, 1, 2_000_000);
  }

  /** So fencing fails across generations: in some run the stalled worker's finish,
      for its lease of generation 0, closes the lease that another worker holds in
      generation 1. */
  lemma StaleHolderClosesNewLease() returns (es: seq<Event>)
    ensures var s, e := Run(es), FinishJob(SLOW, Ready, None, 2_000_001);
            && Claimed(SLOW) in s.log && Claimed(Lease("work", 1, 1)) in s.log
            && Next(s, e).log == s.log + [Finished(Lease("work", 1, 1), SLOW)]
            && "work" in Next(s, e).jobs && Next(s, e).jobs["work"].status.Ready?
  {
    es := StaleRun();
    hide Run;
  }

  // ---- Bounded retries

  function Failures(log: seq<Entry>, key: string, gen: nat): nat {
    if log == [] then 0
    else
      var last := log[|log| - 1];
      Failures(log[..|log| - 1], key, gen)
      + if last.FailureRecorded? && last.lease.key == key && last.lease.gen == gen then 1 else 0
  }

  lemma AppendCounts(log: seq<Entry>, entry: Entry, key: string, gen: nat)
    ensures Failures(log + [entry], key, gen) == Failures(log, key, gen)
            + if entry.FailureRecorded? && entry.lease.key == key && entry.lease.gen == gen then 1 else 0
  {
    assert (log + [entry])[..|log|] == log;
  }

  /** Failures recorded in a job's current generation, by status. */
  predicate CountOk(s: State, key: string)
    requires Aligned(s) && key in s.jobs
  {
    var job, count := s.jobs[key], Failures(s.log, key, s.gens[key]);
    && (job.status.Running? ==> count <= job.attempt - 1)
    && (!job.status.Running? ==> count <= job.attempt)
    && count <= (if job.status.Failed? then DEFAULT_MAX_ATTEMPTS else DEFAULT_MAX_ATTEMPTS - 1)
    && (job.status.Queued? || job.status.Running? ==>
          forall i :: 0 <= i < |s.log| && s.log[i].FailureRecorded? && s.log[i].terminal ==>
            s.log[i].lease.key != key || s.log[i].lease.gen < s.gens[key])
  }

  predicate TerminalIsLast(log: seq<Entry>) {
    forall i, j :: 0 <= i < j < |log| && log[i].FailureRecorded? && log[i].terminal && log[j].lease.key == log[i].lease.key ==>
      log[j].lease.gen > log[i].lease.gen
  }

  ghost predicate TotalsOk(s: State)
    requires Aligned(s)
  {
    forall key, gen: nat ::
      && Failures(s.log, key, gen) <= DEFAULT_MAX_ATTEMPTS
      && (key !in s.jobs || gen > s.gens[key] ==> Failures(s.log, key, gen) == 0)
  }

  ghost predicate CountsOk(s: State) {
    Aligned(s) && (forall key :: key in s.jobs ==> CountOk(s, key)) && TotalsOk(s) && TerminalIsLast(s.log)
  }

  /** The log grows by nothing, by an entry that is no failure, or by the failure
      of the attempt that was running. */
  predicate Records(s: State, after: State, entry: Entry)
    requires Aligned(s)
  {
    && after.log == s.log + [entry] && entry.lease.key in s.jobs && entry.lease.gen == s.gens[entry.lease.key]
    && (entry.FailureRecorded? ==>
          && s.jobs[entry.lease.key].status.Running?
          && (entry.terminal <==> s.jobs[entry.lease.key].attempt >= s.jobs[entry.lease.key].maxAttempts))
    && (s.jobs[entry.lease.key].status.Queued? || s.jobs[entry.lease.key].status.Running?)
  }

  lemma NextRecords(s: State, e: Event)
    requires Aligned(s)
    ensures var after := Next(s, e);
            after.log == s.log || (|after.log| > |s.log| && Records(s, after, after.log[|s.log|]))
  {
  }

  lemma NextGens(s: State, e: Event, key: string)
    requires Aligned(s) && key in s.jobs
    ensures key in Next(s, e).jobs && s.gens[key] <= Next(s, e).gens[key] <= s.gens[key] + 1
  {
  }

  predicate Countable(s: State, key: string) {
    && Aligned(s) && key in s.jobs && CountOk(s, key) && s.jobs[key].attempt >= 0
    && s.jobs[key].maxAttempts == DEFAULT_MAX_ATTEMPTS
    && Failures(s.log, key, s.gens[key] + 1) == 0
    && forall i :: 0 <= i < |s.log| ==> NotAfter(s.log[i].lease, CurrentLease(s, key))
  }

  /** The status, attempt and count of one job move together. */
  lemma CountMoves(s: State, e: Event, key: string)
    requires Countable(s, key)
    ensures CountOk(Next(s, e), key)
  {
    hide Countable, Next, CountOk;
    if e.EnqueueJob? || e.SupersedeReadyJob? || e.Retry? {
      QuietCountMoves(s, e, key);
    } else {
      LoggedCountMoves(s, e, key);
    }
  }

  lemma QuietCountMoves(s: State, e: Event, key: string)
    requires Countable(s, key) && (e.EnqueueJob? || e.SupersedeReadyJob? || e.Retry?)
    ensures CountOk(Next(s, e), key)
  {
    hide Failures, Claimable;
  }

  /** How claiming, extending, finishing and failing move a job; `failed` says that a
      failure of it was recorded. */
  predicate Moves(before: Job, after: Job, failed: bool) {
    && after.maxAttempts == before.maxAttempts
    && if failed then
         before.status.Running? && after.attempt == before.attempt
         && after.status == if before.attempt >= before.maxAttempts then Failed else Queued
       else
         || after == before
         || ((before.status.Queued? || before.status.Running?) && after.status.Running? && after.attempt == before.attempt + 1)
         || (before.status.Running? && after.attempt == before.attempt && !after.status.Queued?)
  }

  lemma NextMoves(s: State, e: Event, key: string)
    requires Aligned(s) && key in s.jobs && (e.Claim? || e.ExtendLease? || e.FinishJob? || e.RecordJobFailure?)
    ensures var after := Next(s, e);
            && key in after.jobs && after.gens[key] == s.gens[key]
            && (after.log == s.log ==> after.jobs[key] == s.jobs[key])
            && (after.log != s.log ==>
                  && |after.log| == |s.log| + 1 && after.log == s.log + [after.log[|s.log|]]
                  && var entry := after.log[|s.log|]; var failed := entry.FailureRecorded? && entry.lease.key == key;
                  && Moves(s.jobs[key], after.jobs[key], failed)
                  && (failed ==> entry.lease.gen == s.gens[key])
                  && (failed ==> (entry.terminal <==> s.jobs[key].attempt >= s.jobs[key].maxAttempts)))
  {
    hide Failures;
  }

  lemma CountAppends(s: State, after: State, key: string, entry: Entry)
    requires Countable(s, key) && Aligned(after) && key in after.jobs && after.gens[key] == s.gens[key]
    requires after.log == s.log + [entry]
    requires Moves(s.jobs[key], after.jobs[key], entry.FailureRecorded? && entry.lease.key == key)
    requires entry.FailureRecorded? && entry.lease.key == key ==>
               entry.lease.gen == s.gens[key] && (entry.terminal <==> s.jobs[key].attempt >= s.jobs[key].maxAttempts)
    ensures CountOk(after, key)
  {
    AppendCounts(s.log, entry, key, s.gens[key]);
    hide Failures;
  }

  lemma LoggedCountMoves(s: State, e: Event, key: string)
    requires Countable(s, key) && !e.EnqueueJob? && !e.SupersedeReadyJob? && !e.Retry?
    ensures CountOk(Next(s, e), key)
  {
    hide Failures, Next, Moves;
    NextMoves(s, e, key);
    var after := Next(s, e);
    if after.log != s.log {
      CountAppends(s, after, key, after.log[|s.log|]);
    }
  }

  lemma CountStarts(s: State, e: Event, key: string)
    requires Aligned(s) && key !in s.jobs && key in Next(s, e).jobs
    requires Failures(s.log, key, 0) == 0 && forall i :: 0 <= i < |s.log| ==> s.log[i].lease.key != key
    ensures CountOk(Next(s, e), key)
  {
    hide Failures, Claimable;
  }

  lemma {:induction false} NextKeepsCount(s: State, e: Event, key: string)
    requires Inv(s) && CountsOk(s) && key in Next(s, e).jobs
    ensures CountOk(Next(s, e), key)
  {
    hide LogOk, TerminalIsLast, Next, CountOk;
    if key in s.jobs {
      assert RowOk(s, key);
      CountMoves(s, e, key);
    } else {
      CountStarts(s, e, key);
    }
  }

  lemma {:induction false} NextKeepsTotals(s: State, e: Event)
    requires Inv(s) && CountsOk(s)
    ensures TotalsOk(Next(s, e)) && TerminalIsLast(Next(s, e).log)
  {
    var after := Next(s, e);
    NextRecords(s, e);
    forall key | key in s.jobs ensures key in after.jobs && s.gens[key] <= after.gens[key] {
      NextGens(s, e, key);
    }
    hide Next, LogOk, RowOk;
    if after.log != s.log {
      TotalsMove(s, after, after.log[|s.log|]);
      TerminalStaysLast(s, after, after.log[|s.log|]);
    }
  }

  lemma TotalsMove(s: State, after: State, entry: Entry)
    requires CountsOk(s) && Aligned(after) && Records(s, after, entry)
    requires forall key :: key in s.jobs ==> key in after.jobs && s.gens[key] <= after.gens[key]
    ensures TotalsOk(after)
  {
    hide TerminalIsLast, Failures;
    assert CountOk(s, entry.lease.key);
    forall key, gen: nat
      ensures Failures(after.log, key, gen) <= DEFAULT_MAX_ATTEMPTS
      ensures key !in after.jobs || gen > after.gens[key] ==> Failures(after.log, key, gen) == 0
    {
      AppendCounts(s.log, entry, key, gen);
    }
  }

  lemma TerminalStaysLast(s: State, after: State, entry: Entry)
    requires CountsOk(s) && Records(s, after, entry)
    ensures TerminalIsLast(after.log)
  {
    hide Failures, TotalsOk;
    assert CountOk(s, entry.lease.key);
  }

  lemma {:induction false} NextKeepsCounts(s: State, e: Event)
    requires Inv(s) && CountsOk(s)
    ensures CountsOk(Next(s, e))
  {
    NextKeepsTotals(s, e);
    hide Next, Inv, TotalsOk, TerminalIsLast, CountOk;
    forall key | key in Next(s, e).jobs ensures CountOk(Next(s, e), key) {
      NextKeepsCount(s, e, key);
    }
  }

  lemma {:induction false} RunKeepsCounts(es: seq<Event>)
    ensures CountsOk(Run(es))
  {
    if es != [] {
      RunKeepsCounts(es[..|es| - 1]);
      RunKeepsInv(es[..|es| - 1]);
      NextKeepsCounts(Run(es[..|es| - 1]), es[|es| - 1]);
    }
  }

  /** In one generation at most the maximum number of failures is recorded, and
      one that made the job `failed` is the last entry of its generation. */
  lemma {:induction false} RetriesAreBounded(es: seq<Event>, key: string, gen: nat)
    ensures Failures(Run(es).log, key, gen) <= DEFAULT_MAX_ATTEMPTS
    ensures TerminalIsLast(Run(es).log)
  {
    RunKeepsCounts(es);
  }

  // ---- Attempts

  /** A job waits in the queue only below the maximum. */
  predicate QueuedBelowMax(s: State) {
    forall key :: key in s.jobs && s.jobs[key].status.Queued? ==> s.jobs[key].attempt < DEFAULT_MAX_ATTEMPTS
  }

  lemma NextKeepsQueued(s: State, e: Event)
    requires Inv(s) && QueuedBelowMax(s)
    ensures QueuedBelowMax(Next(s, e))
  {
    hide LogOk;
    forall key | key in Next(s, e).jobs && Next(s, e).jobs[key].status.Queued?
      ensures Next(s, e).jobs[key].attempt < DEFAULT_MAX_ATTEMPTS
    {
      if key in s.jobs { assert RowOk(s, key); }
    }
  }

  lemma {:induction false} RunKeepsQueued(es: seq<Event>)
    ensures QueuedBelowMax(Run(es))
  {
    if es != [] {
      hide Next, Inv;
      RunKeepsQueued(es[..|es| - 1]);
      RunKeepsInv(es[..|es| - 1]);
      NextKeepsQueued(Run(es[..|es| - 1]), es[|es| - 1]);
    }
  }

  /** A claim leases an attempt beyond the maximum exactly when it reclaims a running job,
      whose lease has expired, at or beyond the maximum. */
  lemma {:induction false} AttemptPassesMaximum(es: seq<Event>, key: string, leaseSeconds: int, now: int)
    requires Claimable(Run(es).jobs, key, now)
    ensures var s := Run(es);
            Next(s, Claim(key, leaseSeconds, now)).jobs[key].attempt > DEFAULT_MAX_ATTEMPTS
            <==> s.jobs[key].status.Running? && s.jobs[key].leaseUntil.Some? && s.jobs[key].leaseUntil.value <= now
                 && s.jobs[key].attempt >= DEFAULT_MAX_ATTEMPTS
  {
    RunKeepsQueued(es);
    hide Run;
  }

  /** So attempts themselves are not bounded: workers that stall one after another lease
      a job any number of times, at the usual 900 seconds, without a recorded failure. */
  lemma {:induction false} AttemptsAreUnbounded(n: nat) returns (es: seq<Event>)
    ensures |es| == n + 1 && es[0] == EnqueueJob("work", "kind", "payload", false, 0)
    ensures forall i :: 1 <= i <= n ==> es[i] == Claim("work", LEASE_SECONDS, LEASE * (i - 1))
    ensures var s := Run(es);
            && s.jobs.Keys == {"work"} && s.jobs["work"].attempt == n && s.jobs["work"].maxAttempts == DEFAULT_MAX_ATTEMPTS
            && Eligible(s.jobs["work"], LEASE * n)
            && forall entry :: entry in s.log ==> !entry.FailureRecorded?
  {
    var status;
    es, status := StalledAttempts(n);
    hide Run;
  }

  lemma {:induction false} StalledAttempts(n: nat) returns (es: seq<Event>, status: Status)
    ensures |es| == n + 1 && es[0] == EnqueueJob("work", "kind", "payload", false, 0)
    ensures forall i :: 1 <= i <= n ==> es[i] == Claim("work", LEASE_SECONDS, LEASE * (i - 1))
    ensures (status.Queued? || status.Running?) && Work(Run(es), status, n, 0, LEASE * n)
    ensures forall entry :: entry in Run(es).log ==> !entry.FailureRecorded?
  {
    hide Run, Work;
    if n == 0 {
      es := Begins();
      status := Queued;
    } else {
      var shorter, before := StalledAttempts(n - 1);
      es := ClaimAttempt(shorter, before, n - 1, 0, LEASE * (n - 1));
      status := Running;
    }
  }
}
