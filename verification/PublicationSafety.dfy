/** What workers may rely on in every interleaving: exact withdrawals, exact
    uploads, and readiness that always follows a check of the stored bytes. */
module PublicationSafety {
  import opened Artifacts
  import opened Publication
  import opened PublicationProtocol

  /** A worker past admission saw a row for its own artifact and key; the row is
      still there with the same declaration; and only a worker that saw a row
      short of readiness uploads. */
  ghost predicate WorkerOk(sets: Table, worker: Worker) {
    && (worker.seen.Some? ==>
          var h, row := ArtifactFor(worker), worker.seen.value;
          && h in sets && Newer(row, sets[h]) && Live(row)
          && row.file.objectKey == KeyOf(worker.job.p, worker.job.t)
          && (worker.job.PublishJob? ==>
                && Sealed(worker.job.p, worker.job.output)
                && row.file == FileOf(worker.job.p, worker.job.t, worker.job.output.result)))
    && (worker.phase.Sending? || worker.phase.Waiting? ==>
          worker.seen.Some? && worker.job.PublishJob? && !worker.seen.value.status.Ready?)
  }

  ghost predicate WorkersOk(s: State) {
    forall w :: w in s.workers ==> WorkerOk(s.sets, s.workers[w])
  }

  /** Every write request carries what the row for its key declares. */
  ghost predicate SentOk(sets: Table, sent: set<Put>) {
    forall put :: put in sent ==>
      var h := put.key.artifact;
      h in sets && sets[h].file.objectKey == put.key && Exact(put.body, sets[h].file)
  }

  ghost predicate Inv(s: State) {
    TableInv(s.sets) && WorkersOk(s) && SentOk(s.sets, s.sent)
  }

  lemma EvolutionKeepsWorker(before: Table, after: Table, worker: Worker)
    requires WorkerOk(before, worker) && Evolves(before, after)
    ensures WorkerOk(after, worker)
  {
    if worker.seen.Some? {
      NewerTransitive(worker.seen.value, before[ArtifactFor(worker)], after[ArtifactFor(worker)]);
    }
  }

  lemma EvolutionKeepsSent(before: Table, after: Table, sent: set<Put>)
    requires SentOk(before, sent) && Evolves(before, after)
    ensures SentOk(after, sent)
  {
  }

  lemma SealedBytesAreExact(p: Recipe, t: Target, output: Output)
    requires Sealed(p, output)
    ensures Exact(Object(p.mediaType, output.bytes), FileOf(p, t, output.result))
  {
  }

  predicate Uploading(phase: Phase) {
    phase.Sending? || phase.Waiting?
  }

  predicate IsAdmission(s: State, e: Event, w: nat) {
    e.Enter? && e.w == w && HasPhase(s, w, Begin)
  }

  /** The event is a step of worker `w`. */
  predicate Touches(e: Event, w: nat) {
    !e.Land? && !e.Operator? && !e.Corrupt? && e.w == w
  }

  lemma OthersStay(s: State, e: Event, w: nat)
    requires w in Next(s, e).workers && !Touches(e, w)
    ensures w in s.workers && Next(s, e).workers[w] == s.workers[w]
  {
    hide EnterStep, FinishStep, Withdraw, Fail, RecordFailure, StoredExactly, HeadMatches, KeyOf, ArtifactOf, HasPhase;
    if e.Enter? && HasPhase(s, e.w, Begin) { PhasedIsThere(s, e.w, Begin); EnteringTouchesOwn(s, e.w, e.now); }
    if e.Finish? && HasPhase(s, e.w, Completing) { PhasedIsThere(s, e.w, Completing); FinishingTouchesOwn(s, e.w, e.now); }
  }

  lemma PhasedIsThere(s: State, w: nat, phase: Phase)
    requires HasPhase(s, w, phase)
    ensures w in s.workers && s.workers[w].phase == phase
  {
  }

  predicate MovesOn(s: State, e: Event, w: nat, before: Worker, after: Worker) {
    && after.job == before.job && after.seen == before.seen
    && (Uploading(after.phase) ==> Uploading(before.phase))
    && (Checked(after.phase) ==>
          Checked(before.phase)
          || (e == Read(w, false) && before.phase.Reading? && before.seen.Some? && StoredExactly(s.objects, before.seen.value.file)))
  }

  lemma EarlyStepMovesOn(s: State, e: Event, w: nat)
    requires Touches(e, w) && w in s.workers && w in Next(s, e).workers && !IsAdmission(s, e, w)
    requires !e.Read? && !e.Cleanup? && !e.Finish? && !e.Record?
    ensures MovesOn(s, e, w, s.workers[w], Next(s, e).workers[w])
  {
    hide EnterStep, FinishStep, Withdraw, Fail, RecordFailure, StoredExactly, HeadMatches, KeyOf, ArtifactOf;
  }

  lemma LateStepMovesOn(s: State, e: Event, w: nat)
    requires (e.Read? || e.Cleanup? || e.Finish? || e.Record?) && e.w == w && w in s.workers && w in Next(s, e).workers
    ensures MovesOn(s, e, w, s.workers[w], Next(s, e).workers[w])
  {
    hide EnterStep, FinishStep, Withdraw, Fail, RecordFailure, StoredExactly, HeadMatches, KeyOf, ArtifactOf;
    if e.Finish? && HasPhase(s, e.w, Completing) { FinishingTouchesOwn(s, e.w, e.now); }
  }

  /** A worker's own step, its admission apart, only moves it on. */
  lemma OwnStepMovesOn(s: State, e: Event, w: nat)
    requires Touches(e, w) && w in s.workers && w in Next(s, e).workers && !IsAdmission(s, e, w)
    ensures MovesOn(s, e, w, s.workers[w], Next(s, e).workers[w])
  {
    hide Next, MovesOn, IsAdmission;
    if e.Read? || e.Cleanup? || e.Finish? || e.Record? {
      LateStepMovesOn(s, e, w);
    } else {
      EarlyStepMovesOn(s, e, w);
    }
  }

  /** Apart from its own admission a worker keeps its job and the row it saw, and
      cannot start uploading. */
  lemma WorkerKeeps(s: State, e: Event, w: nat)
    requires w in Next(s, e).workers && !IsAdmission(s, e, w)
    ensures var after := Next(s, e).workers[w];
            if w in s.workers
            then after.job == s.workers[w].job && after.seen == s.workers[w].seen
                 && (Uploading(after.phase) ==> Uploading(s.workers[w].phase))
            else after.seen.None? && after.phase.Begin?
  {
    if !Touches(e, w) {
      hide Next, IsAdmission;
      OthersStay(s, e, w);
    } else if w in s.workers {
      hide Next, IsAdmission;
      OwnStepMovesOn(s, e, w);
    } else {
      NewWorkerBegins(s, e, w);
    }
  }

  lemma NewWorkerBegins(s: State, e: Event, w: nat)
    requires w in Next(s, e).workers && w !in s.workers
    ensures e.Spawn? && e.w == w && Next(s, e).workers[w].job == e.job
            && Next(s, e).workers[w].phase.Begin? && Next(s, e).workers[w].seen.None?
  {
    hide EnterStep, FinishStep, Withdraw, Fail, RecordFailure, StoredExactly, HeadMatches, KeyOf, ArtifactOf;
    if e.Enter? && HasPhase(s, e.w, Begin) { EnteringTouchesOwn(s, e.w, e.now); }
    if e.Finish? && HasPhase(s, e.w, Completing) { FinishingTouchesOwn(s, e.w, e.now); }
  }

  lemma EnteringTouchesOwn(s: State, w: nat, now: int)
    requires w in s.workers
    ensures var after := EnterStep(s, w, now);
            && after.objects == s.objects && after.workers == s.workers[w := after.workers[w]]
            && !Checked(after.workers[w].phase)
  {
    hide Admit;
  }

  lemma FinishingTouchesOwn(s: State, w: nat, now: int)
    requires w in s.workers
    ensures var after := FinishStep(s, w, now);
            && after.objects == s.objects && after.workers == s.workers[w := after.workers[w]]
            && after.workers[w].job == s.workers[w].job && after.workers[w].seen == s.workers[w].seen
            && after.workers[w].phase.Finished?
  {
    hide Complete;
  }

  lemma AdmissionIsOk(s: State, e: Event, w: nat)
    requires TableInv(s.sets) && IsAdmission(s, e, w)
    ensures w in Next(s, e).workers && WorkerOk(Next(s, e).sets, Next(s, e).workers[w])
  {
    hide TableInv, Admit, Evolves;
    AdmitKeepsTable(s.sets, s.workers[w].job, e.now);
  }

  lemma KeptWorkerIsOk(sets: Table, worker: Worker, after: Worker)
    requires WorkerOk(sets, worker) && after.job == worker.job && after.seen == worker.seen
    requires Uploading(after.phase) ==> Uploading(worker.phase)
    ensures WorkerOk(sets, after)
  {
  }

  lemma FreshWorkerIsOk(sets: Table, worker: Worker)
    requires worker.seen.None? && worker.phase.Begin?
    ensures WorkerOk(sets, worker)
  {
  }

  lemma {:induction false} StepKeepsWorker(s: State, e: Event, w: nat)
    requires TableInv(s.sets) && WorkersOk(s) && w in Next(s, e).workers
    ensures WorkerOk(Next(s, e).sets, Next(s, e).workers[w])
  {
    hide Next, TableInv, Evolves, WorkerOk, HasPhase;
    NextKeepsTable(s, e);
    var after := Next(s, e);
    if IsAdmission(s, e, w) {
      AdmissionIsOk(s, e, w);
    } else {
      WorkerKeeps(s, e, w);
      if w in s.workers {
        EvolutionKeepsWorker(s.sets, after.sets, s.workers[w]);
        KeptWorkerIsOk(after.sets, s.workers[w], after.workers[w]);
      } else {
        FreshWorkerIsOk(after.sets, after.workers[w]);
      }
    }
  }

  lemma {:induction false} StepKeepsSent(s: State, e: Event)
    requires Inv(s)
    ensures SentOk(Next(s, e).sets, Next(s, e).sent)
  {
    hide TableInv, Evolves, Complete, Admit, Withdraw, Fail, FailReady, RecordFailure, StoredExactly, HeadMatches;
    NextKeepsTable(s, e);
    EvolutionKeepsSent(s.sets, Next(s, e).sets, s.sent);
    if e.Send? && HasPhase(s, e.w, Sending) {
      var job := s.workers[e.w].job;
      if job.PublishJob? { SealedBytesAreExact(job.p, job.t, job.output); }
    }
  }

  lemma {:induction false} NextKeepsInv(s: State, e: Event)
    requires Inv(s)
    ensures Inv(Next(s, e))
  {
    hide Next, TableInv, WorkerOk, SentOk;
    NextKeepsTable(s, e);
    StepKeepsSent(s, e);
    forall w | w in Next(s, e).workers
      ensures WorkerOk(Next(s, e).sets, Next(s, e).workers[w])
    {
      StepKeepsWorker(s, e, w);
    }
  }

  lemma InitialInv()
    ensures WorkersOk(INIT) && SentOk(INIT.sets, INIT.sent)
  {
  }

  lemma {:induction false} RunKeepsInv(es: seq<Event>, i: nat)
    requires i <= |es|
    ensures Inv(At(es, i))
  {
    hide Next, TableInv, WorkerOk, SentOk;
    if i == 0 {
      RunKeepsTable(es, 0);
      InitialInv();
    } else {
      RunKeepsInv(es, i - 1);
      NextKeepsInv(At(es, i - 1), es[i - 1]);
    }
  }

  /** Whoever sent them, all writes to one key carry the same object, the one its
      row declares; so a late or repeated write never stores anything else. */
  lemma WritesAgree(es: seq<Event>, i: nat, a: Put, b: Put)
    requires i <= |es| && a in At(es, i).sent && b in At(es, i).sent && a.key == b.key
    ensures a.body == b.body
    ensures a.key.artifact in At(es, i).sets && Exact(a.body, At(es, i).sets[a.key.artifact].file)
  {
    RunKeepsInv(es, i);
  }

  /** A worker that found its row ready never issues a write. */
  lemma ReadyRowsAreNotUploaded(es: seq<Event>, i: nat, w: nat)
    requires i < |es| && es[i] == Send(w) && At(es, i + 1) != At(es, i)
    ensures w in At(es, i).workers && At(es, i).workers[w].seen.Some? && !At(es, i).workers[w].seen.value.status.Ready?
  {
    RunKeepsInv(es, i);
  }

  // ---- Withdrawal of a ready row

  predicate WithdrawsReady(s: State, e: Event) {
    && e.Record? && HasPhase(s, e.w, Failing) && s.workers[e.w].seen.value.status.Ready?
    && ArtifactFor(s.workers[e.w]) in s.sets
  }

  /** A failed check of a ready row withdraws it exactly when the row is still,
      in every column, the one the worker read. */
  lemma WithdrawalIsExact(es: seq<Event>, i: nat)
    requires i < |es| && WithdrawsReady(At(es, i), es[i])
    ensures var s := At(es, i);
            var h, row := ArtifactFor(s.workers[es[i].w]), s.workers[es[i].w].seen.value;
            && (At(es, i + 1).sets != s.sets <==> s.sets[h] == row)
            && (At(es, i + 1).sets != s.sets ==>
                  At(es, i + 1).sets == s.sets[h := row.(status := UploadFailed, updatedAt := Advance(row.updatedAt, es[i].now))])
  {
    RunKeepsInv(es, i);
    RunKeepsTable(es, i);
    var s := At(es, i);
    assert WorkerOk(s.sets, s.workers[es[i].w]);
    assert RowOk(ArtifactFor(s.workers[es[i].w]), s.sets[ArtifactFor(s.workers[es[i].w])]);
  }

  predicate Holds(s: State, w: nat) {
    w in s.workers && s.workers[w].seen.Some?
  }

  lemma AdmissionFindsRow(s: State, e: Event, w: nat)
    requires TableInv(s.sets) && IsAdmission(s, e, w) && Holds(Next(s, e), w)
    ensures var worker := Next(s, e).workers[w];
            ArtifactFor(worker) in Next(s, e).sets && Next(s, e).sets[ArtifactFor(worker)] == worker.seen.value
  {
    hide TableInv, Admit, Evolves;
    AdmitKeepsTable(s.sets, s.workers[w].job, e.now);
  }

  /** The row a worker holds is the one its own admission found. */
  lemma {:induction false} AdmittedAt(es: seq<Event>, i: nat, w: nat) returns (a: nat)
    requires i <= |es| && Holds(At(es, i), w)
    ensures a < i && IsAdmission(At(es, a), es[a], w)
    ensures var worker := At(es, i).workers[w];
            ArtifactFor(worker) in At(es, a + 1).sets && At(es, a + 1).sets[ArtifactFor(worker)] == worker.seen.value
  {
    hide Next, TableInv, HasPhase;
    assert i > 0;
    var s := At(es, i - 1);
    if IsAdmission(s, es[i - 1], w) {
      a := i - 1;
      RunKeepsTable(es, a);
      AdmissionFindsRow(s, es[a], w);
    } else {
      WorkerKeeps(s, es[i - 1], w);
      a := AdmittedAt(es, i - 1, w);
    }
  }

  lemma WithdrawerHoldsRow(s: State, e: Event)
    requires WithdrawsReady(s, e)
    ensures Holds(s, e.w)
  {
  }

  /** No ABA: when a failed check does withdraw a ready row, the row has been ready,
      and unchanged, in every state since the worker read it, even if the clock
      stood still or ran backwards meanwhile. */
  lemma WithdrawalSawContinuousReadiness(es: seq<Event>, i: nat) returns (a: nat)
    requires i < |es| && WithdrawsReady(At(es, i), es[i]) && At(es, i + 1).sets != At(es, i).sets
    ensures var w := es[i].w;
            var h := ArtifactFor(At(es, i).workers[w]);
            && a < i && IsAdmission(At(es, a), es[a], w)
            && forall k: nat :: a < k <= i ==>
                 h in At(es, k).sets && At(es, k).sets[h] == At(es, i).sets[h] && At(es, k).sets[h].status.Ready?
  {
    hide At, Next, HasPhase, Newer, IsAdmission;
    WithdrawalIsExact(es, i);
    WithdrawerHoldsRow(At(es, i), es[i]);
    a := AdmittedAt(es, i, es[i].w);
    var h, row := ArtifactFor(At(es, i).workers[es[i].w]), At(es, i).workers[es[i].w].seen.value;
    forall k: nat | a < k <= i
      ensures h in At(es, k).sets && At(es, k).sets[h] == row
    {
      RunEvolves(es, a + 1, k, h);
      RunEvolves(es, k, i, h);
      NewerBothWays(row, At(es, k).sets[h]);
    }
  }

  lemma NewerBothWays(a: Row, b: Row)
    requires Newer(a, b) && Newer(b, a)
    ensures a == b
  {
  }

  // ---- Readiness and stored bytes

  predicate Checked(phase: Phase) {
    phase.Cleaning? || phase.Completing?
  }

  predicate IsReady(sets: Table, h: ArtifactHash) {
    h in sets && sets[h].status.Ready?
  }

  /** Only a completion makes a row ready, and only the completing worker's own row. */
  lemma OnlyCompletionMakesReady(s: State, e: Event, h: ArtifactHash)
    requires IsReady(Next(s, e).sets, h) && !IsReady(s.sets, h)
    ensures e.Finish? && HasPhase(s, e.w, Completing) && h == ArtifactFor(s.workers[e.w])
  {
    hide Admit, Complete, StoredExactly, HeadMatches;
    if e.Enter? && HasPhase(s, e.w, Begin) {
      AdmissionReadiesNothing(s.sets, s.workers[e.w].job, e.now, h);
    } else if e.Finish? && HasPhase(s, e.w, Completing) {
      var job := s.workers[e.w].job;
      CompletionReadiesOwn(s.sets, job.p, job.t.outputKind, job.t.format, KeyOf(job.p, job.t), e.now, h);
    }
  }

  /** The event completes another artifact, not superseded meanwhile, for the same source,
      configuration, options and output kind. */
  predicate CompletesRival(s: State, e: Event, h: ArtifactHash)
    requires h in s.sets
  {
    && e.Finish? && HasPhase(s, e.w, Completing)
    && var g := ArtifactFor(s.workers[e.w]);
       && g in s.sets && g != h && (s.sets[g].status.Staged? || s.sets[g].status.UploadFailed?)
       && s.sets[g].source == s.sets[h].source && s.sets[g].config == s.sets[h].config
       && s.sets[g].options == s.sets[h].options && s.sets[g].outputKind == s.sets[h].outputKind
  }

  /** The event records the failed check of a worker that saw the very row there is. */
  predicate FailsCheck(s: State, e: Event, h: ArtifactHash)
    requires h in s.sets
  {
    e.Record? && HasPhase(s, e.w, Failing) && ArtifactFor(s.workers[e.w]) == h && s.workers[e.w].seen.value == s.sets[h]
  }

  lemma RowsKeepIdentity(sets: Table, h: ArtifactHash)
    requires RowsOk(sets) && h in sets
    ensures var row := sets[h];
            row.source == h.source && row.config == h.config && row.options == h.options && row.outputKind == h.outputKind
            && RowOk(h, row)
  {
  }

  /** A staged or loaded artifact loads again unless it has been superseded. */
  lemma SeenLoads(sets: Table, worker: Worker)
    requires RowsOk(sets) && WorkerOk(sets, worker) && worker.seen.Some?
    ensures var h, t := ArtifactFor(worker), worker.job.t;
            && h in sets && sets[h].file.objectKey == KeyOf(worker.job.p, t)
            && (Load(sets, worker.job.p, t.outputKind, t.format).Ok? <==> !sets[h].status.Superseded?)
  {
    hide FileAllowed, Sealed;
    assert RowOk(ArtifactFor(worker), sets[ArtifactFor(worker)]);
  }

  lemma CompletionEndsReadiness(s: State, e: Event, h: ArtifactHash)
    requires RowsOk(s.sets) && WorkersOk(s) && IsReady(s.sets, h) && e.Finish? && HasPhase(s, e.w, Completing)
    ensures h in Next(s, e).sets && (IsReady(Next(s, e).sets, h) <==> !CompletesRival(s, e, h))
  {
    hide Load, Complete, WorkerOk, RowOk, RowsOk;
    var worker := s.workers[e.w];
    assert WorkerOk(s.sets, worker);
    SeenLoads(s.sets, worker);
    CompleteExact(s.sets, worker.job.p, worker.job.t.outputKind, worker.job.t.format, KeyOf(worker.job.p, worker.job.t), e.now);
    RowsKeepIdentity(s.sets, h);
    RowsKeepIdentity(s.sets, ArtifactFor(worker));
  }

  lemma RecordedTable(s: State, e: Event)
    requires e.Record?
    ensures Next(s, e).sets
            == if HasPhase(s, e.w, Failing) then RecordFailure(s.sets, ArtifactFor(s.workers[e.w]), RevisionOf(s.workers[e.w].seen.value), e.now)
               else if HasPhase(s, e.w, CleanupFailing) then Fail(s.sets, ArtifactFor(s.workers[e.w]), e.now).0
               else s.sets
  {
    hide RecordFailure, Fail, RevisionOf, ArtifactOf;
  }

  lemma FailKeepsReady(sets: Table, h: ArtifactHash, now: int, k: ArtifactHash)
    ensures k in sets ==> k in Fail(sets, h, now).0 && (Fail(sets, h, now).0[k].status.Ready? <==> sets[k].status.Ready?)
  {
  }

  /** Recording a failure takes readiness away exactly from the row that was seen ready and
      has not changed since. */
  lemma RecordingEndsReadiness(sets: Table, worker: Worker, now: int, h: ArtifactHash)
    requires RowsOk(sets) && WorkerOk(sets, worker) && worker.seen.Some? && IsReady(sets, h)
    ensures var after := RecordFailure(sets, ArtifactFor(worker), RevisionOf(worker.seen.value), now);
            h in after && (IsReady(after, h) <==> !(ArtifactFor(worker) == h && worker.seen.value == sets[h]))
  {
    var g, seen := ArtifactFor(worker), worker.seen.value;
    assert RowOk(g, sets[g]);
    assert Newer(seen, sets[g]) && Live(seen);
    RecordExact(sets, g, seen, now);
    hide RecordFailure, WorkerOk, RowsOk, FileAllowed;
  }

  lemma RecordEndsReadiness(s: State, e: Event, h: ArtifactHash)
    requires RowsOk(s.sets) && WorkersOk(s) && IsReady(s.sets, h) && e.Record?
    ensures h in Next(s, e).sets && (IsReady(Next(s, e).sets, h) <==> !FailsCheck(s, e, h))
  {
    hide Next, RecordFailure, Fail, RowsOk, WorkerOk, ArtifactFor, RevisionOf;
    RecordedTable(s, e);
    if HasPhase(s, e.w, Failing) {
      RecordingEndsReadiness(s.sets, s.workers[e.w], e.now, h);
    } else if HasPhase(s, e.w, CleanupFailing) {
      FailKeepsReady(s.sets, ArtifactFor(s.workers[e.w]), e.now, h);
    }
  }

  lemma AdmissionKeepsReady(sets: Table, job: Job, now: int, h: ArtifactHash)
    requires IsReady(sets, h)
    ensures IsReady(Admit(sets, job, now).0, h)
  {
    hide Load, Sealed, ValidDeployment, DeclarationMatches, StageOrResume;
    if job.PublishJob? {
      StageExact(sets, job.p, StageRequestOf(job.p, job.t, job.output.result), [FileOf(job.p, job.t, job.output.result)], now);
      StageConflictRollsBack(sets, job.p, StageRequestOf(job.p, job.t, job.output.result), [FileOf(job.p, job.t, job.output.result)], now);
    }
  }

  lemma WithdrawalEndsReadiness(s: State, e: Event, h: ArtifactHash)
    requires IsReady(s.sets, h) && e.Operator?
    ensures h in Next(s, e).sets && (IsReady(Next(s, e).sets, h) <==> e.h != h)
  {
  }

  lemma AdmittingKeepsReadiness(s: State, e: Event, h: ArtifactHash)
    requires IsReady(s.sets, h) && e.Enter?
    ensures IsReady(Next(s, e).sets, h)
  {
    hide Admit;
    if e.w in s.workers { AdmissionKeepsReady(s.sets, s.workers[e.w].job, e.now, h); }
  }

  lemma OthersKeepTable(s: State, e: Event)
    requires !e.Enter? && !e.Record? && !e.Operator? && !(e.Finish? && HasPhase(s, e.w, Completing))
    ensures Next(s, e).sets == s.sets
  {
    hide StoredExactly, HeadMatches, KeyOf, ArtifactOf, EnterStep, FinishStep, RecordFailure, Withdraw;
  }

  /** A ready row stays ready but for exactly three events: the completion of a rival, a
      failed check of that very row, and a withdrawal by an operator. */
  lemma {:induction false} ReadinessEndsExactly(s: State, e: Event, h: ArtifactHash)
    requires RowsOk(s.sets) && WorkersOk(s) && IsReady(s.sets, h)
    ensures h in Next(s, e).sets
    ensures IsReady(Next(s, e).sets, h)
            <==> !CompletesRival(s, e, h) && !FailsCheck(s, e, h) && !(e.Operator? && e.h == h)
  {
    hide Next, WorkersOk, RowsOk, HasPhase;
    if e.Finish? && HasPhase(s, e.w, Completing) {
      CompletionEndsReadiness(s, e, h);
    } else if e.Record? {
      RecordEndsReadiness(s, e, h);
    } else if e.Enter? {
      AdmittingKeepsReadiness(s, e, h);
    } else if e.Operator? {
      WithdrawalEndsReadiness(s, e, h);
    } else {
      OthersKeepTable(s, e);
    }
  }

  lemma NextAt(es: seq<Event>, k: nat)
    requires k < |es|
    ensures At(es, k + 1) == Next(At(es, k), es[k])
  {
    hide Next;
  }

  /** Over a run: a row ready at one moment and not at a later one was retired in between
      by one of these events, at a moment when it was still ready. */
  lemma {:induction false} RetiredBy(es: seq<Event>, i: nat, j: nat, h: ArtifactHash) returns (k: nat)
    requires i <= j <= |es| && IsReady(At(es, i).sets, h) && !IsReady(At(es, j).sets, h)
    ensures i <= k < j && h in At(es, k).sets && At(es, k).sets[h].status.Ready? && !IsReady(At(es, k + 1).sets, h)
    ensures CompletesRival(At(es, k), es[k], h) || FailsCheck(At(es, k), es[k], h) || (es[k].Operator? && es[k].h == h)
  {
    hide At, Next, WorkersOk, RowsOk, OneReady, PointersOk, Acyclic, SentOk, CompletesRival, FailsCheck;
    if IsReady(At(es, j - 1).sets, h) {
      k := j - 1;
      RunKeepsInv(es, k);
      ReadinessEndsExactly(At(es, k), es[k], h);
      NextAt(es, k);
    } else {
      k := RetiredBy(es, i, j - 1, h);
    }
  }

  lemma AdmissionReadiesNothing(sets: Table, job: Job, now: int, h: ArtifactHash)
    ensures IsReady(Admit(sets, job, now).0, h) ==> IsReady(sets, h)
  {
    hide Load, Sealed, ValidDeployment, DeclarationMatches, StageOrResume;
    if job.PublishJob? {
      StageExact(sets, job.p, StageRequestOf(job.p, job.t, job.output.result), [FileOf(job.p, job.t, job.output.result)], now);
      StageConflictRollsBack(sets, job.p, StageRequestOf(job.p, job.t, job.output.result), [FileOf(job.p, job.t, job.output.result)], now);
    }
  }

  lemma CompletionReadiesOwn(sets: Table, p: Recipe, outputKind: string, format: string, key: ObjectKey, now: int, h: ArtifactHash)
    ensures IsReady(Complete(sets, p, outputKind, format, key, now).0, h) ==> IsReady(sets, h) || h == HashOf(p, outputKind, format)
  {
    CompleteExact(sets, p, outputKind, format, key, now);
    hide Complete;
  }

  /** A worker enters the checked phases only by reading the exact object. */
  lemma OnlyReadingChecks(s: State, e: Event, w: nat)
    requires w in Next(s, e).workers && Checked(Next(s, e).workers[w].phase)
    ensures w in s.workers && s.workers[w].job == Next(s, e).workers[w].job && s.workers[w].seen == Next(s, e).workers[w].seen
    ensures Checked(s.workers[w].phase)
            || (e == Read(w, false) && HasPhase(s, w, Reading) && StoredExactly(s.objects, s.workers[w].seen.value.file))
  {
    hide StoredExactly;
    if !Touches(e, w) {
      hide Next;
      OthersStay(s, e, w);
    } else if w !in s.workers {
      hide Next;
      NewWorkerBegins(s, e, w);
    } else if IsAdmission(s, e, w) {
      EnteringTouchesOwn(s, w, e.now);
    } else {
      hide Next;
      OwnStepMovesOn(s, e, w);
    }
  }

  ghost predicate StorageOk(s: State) {
    && (forall h :: IsReady(s.sets, h) ==> StoredExactly(s.objects, s.sets[h].file))
    && (forall w :: w in s.workers && Checked(s.workers[w].phase) && s.workers[w].seen.Some? ==>
          StoredExactly(s.objects, s.workers[w].seen.value.file))
  }

  lemma OnlyLandingWrites(s: State, e: Event)
    requires !e.Corrupt?
    ensures Next(s, e).objects == s.objects
            || (e.Land? && e.put in s.sent && Next(s, e).objects == s.objects[e.put.key := e.put.body])
  {
    hide Complete, Admit, Withdraw, Fail, FailReady, RecordFailure, HeadMatches, KeyOf, ArtifactOf, StoredExactly;
  }

  /** Without outside corruption a stored declared object stays stored: every
      write that can still land at its key carries the same object. */
  lemma {:induction false} StoredStays(s: State, e: Event, h: ArtifactHash)
    requires RowsOk(s.sets) && SentOk(s.sets, s.sent) && !e.Corrupt?
    requires h in s.sets && StoredExactly(s.objects, s.sets[h].file)
    ensures StoredExactly(Next(s, e).objects, s.sets[h].file)
  {
    hide Next;
    OnlyLandingWrites(s, e);
  }

  lemma {:induction false} NextKeepsReadyStored(s: State, e: Event, h: ArtifactHash)
    requires Inv(s) && StorageOk(s) && !e.Corrupt? && IsReady(Next(s, e).sets, h)
    ensures StoredExactly(Next(s, e).objects, Next(s, e).sets[h].file)
  {
    hide Next, Exact, StoredExactly;
    NextKeepsTable(s, e);
    if !IsReady(s.sets, h) {
      OnlyCompletionMakesReady(s, e, h);
      assert WorkerOk(s.sets, s.workers[e.w]);
    }
    StoredStays(s, e, h);
  }

  lemma {:induction false} NextKeepsCheckedStored(s: State, e: Event, w: nat)
    requires Inv(s) && StorageOk(s) && !e.Corrupt?
    requires w in Next(s, e).workers && Checked(Next(s, e).workers[w].phase) && Next(s, e).workers[w].seen.Some?
    ensures StoredExactly(Next(s, e).objects, Next(s, e).workers[w].seen.value.file)
  {
    hide Next, Exact, StoredExactly;
    OnlyReadingChecks(s, e, w);
    assert WorkerOk(s.sets, s.workers[w]);
    StoredStays(s, e, ArtifactFor(s.workers[w]));
  }

  lemma {:induction false} NextKeepsStorage(s: State, e: Event)
    requires Inv(s) && StorageOk(s) && !e.Corrupt?
    ensures StorageOk(Next(s, e))
  {
    hide Next, Inv, StoredExactly, Checked;
    forall h | IsReady(Next(s, e).sets, h)
      ensures StoredExactly(Next(s, e).objects, Next(s, e).sets[h].file)
    {
      NextKeepsReadyStored(s, e, h);
    }
    forall w | w in Next(s, e).workers && Checked(Next(s, e).workers[w].phase) && Next(s, e).workers[w].seen.Some?
      ensures StoredExactly(Next(s, e).objects, Next(s, e).workers[w].seen.value.file)
    {
      NextKeepsCheckedStored(s, e, w);
    }
  }

  lemma {:induction false} RunKeepsStorage(es: seq<Event>, i: nat)
    requires i <= |es| && forall k :: 0 <= k < i ==> !es[k].Corrupt?
    ensures StorageOk(At(es, i))
  {
    hide Next, Inv;
    if i > 0 {
      RunKeepsStorage(es, i - 1);
      RunKeepsInv(es, i - 1);
      NextKeepsStorage(At(es, i - 1), es[i - 1]);
    }
  }

  /** Ready means stored: unless something outside this protocol touches storage,
      every ready row's object exists with its content type, length and digest. */
  lemma ReadyIsStored(es: seq<Event>, i: nat, h: ArtifactHash)
    requires i <= |es| && (forall k :: 0 <= k < i ==> !es[k].Corrupt?) && IsReady(At(es, i).sets, h)
    ensures StoredExactly(At(es, i).objects, At(es, i).sets[h].file)
  {
    RunKeepsStorage(es, i);
  }

  predicate PastHead(phase: Phase) {
    phase.Reading? || Checked(phase)
  }

  /** Storage reported the declared type and length for the declared key. */
  predicate HeadersAgree(objects: Store, file: FileRow) {
    && file.objectKey in objects && objects[file.objectKey].contentType == file.contentType
    && |objects[file.objectKey].bytes| == file.byteLen
  }

  lemma OwnStepPastHead(s: State, e: Event, w: nat)
    requires Touches(e, w) && w in s.workers && w in Next(s, e).workers && !IsAdmission(s, e, w)
    requires PastHead(Next(s, e).workers[w].phase)
    ensures PastHead(s.workers[w].phase)
            || (e == Head(w, false) && HasPhase(s, w, Heading) && HeadersAgree(s.objects, s.workers[w].seen.value.file))
  {
    hide EnterStep, FinishStep, Withdraw, Fail, RecordFailure, StoredExactly, KeyOf, ArtifactOf;
    if e.Finish? && HasPhase(s, w, Completing) { FinishingTouchesOwn(s, w, e.now); }
  }

  lemma AdmissionIsBeforeHead(s: State, e: Event, w: nat)
    requires IsAdmission(s, e, w) && w in Next(s, e).workers
    ensures !PastHead(Next(s, e).workers[w].phase)
  {
    hide Admit;
  }

  lemma {:induction false} OnlyHeadingReads(s: State, e: Event, w: nat)
    requires w in Next(s, e).workers && PastHead(Next(s, e).workers[w].phase)
    ensures w in s.workers && s.workers[w].job == Next(s, e).workers[w].job && s.workers[w].seen == Next(s, e).workers[w].seen
    ensures PastHead(s.workers[w].phase)
            || (e == Head(w, false) && HasPhase(s, w, Heading) && HeadersAgree(s.objects, s.workers[w].seen.value.file))
  {
    hide Next, HasPhase, HeadersAgree, IsAdmission, Touches;
    if IsAdmission(s, e, w) {
      AdmissionIsBeforeHead(s, e, w);
    } else {
      WorkerKeeps(s, e, w);
      if !Touches(e, w) {
        OthersStay(s, e, w);
      } else if w in s.workers {
        OwnStepPastHead(s, e, w);
      }
    }
  }

  /** A worker that comes to read an object had first been told, by a request of its own,
      that it has the declared type and length. */
  lemma {:induction false} HeadedAt(es: seq<Event>, i: nat, w: nat) returns (c: nat)
    requires i <= |es| && w in At(es, i).workers && PastHead(At(es, i).workers[w].phase)
    ensures c < i && es[c] == Head(w, false) && HasPhase(At(es, c), w, Heading)
    ensures At(es, c).workers[w].job == At(es, i).workers[w].job && At(es, c).workers[w].seen == At(es, i).workers[w].seen
    ensures HeadersAgree(At(es, c).objects, At(es, c).workers[w].seen.value.file)
  {
    hide Next, HeadersAgree;
    assert i > 0;
    OnlyHeadingReads(At(es, i - 1), es[i - 1], w);
    if PastHead(At(es, i - 1).workers[w].phase) {
      c := HeadedAt(es, i - 1, w);
    } else {
      c := i - 1;
    }
  }

  lemma {:induction false} CheckedAt(es: seq<Event>, i: nat, w: nat) returns (c: nat)
    requires i <= |es| && w in At(es, i).workers && Checked(At(es, i).workers[w].phase)
    ensures c < i && es[c] == Read(w, false) && HasPhase(At(es, c), w, Reading)
    ensures At(es, c).workers[w].job == At(es, i).workers[w].job && At(es, c).workers[w].seen == At(es, i).workers[w].seen
    ensures StoredExactly(At(es, c).objects, At(es, c).workers[w].seen.value.file)
  {
    hide Next, StoredExactly;
    assert i > 0;
    OnlyReadingChecks(At(es, i - 1), es[i - 1], w);
    if Checked(At(es, i - 1).workers[w].phase) {
      c := CheckedAt(es, i - 1, w);
    } else {
      c := i - 1;
    }
  }

  /** Whatever happens to storage, a row becomes ready only in a completion by a
      worker that itself read, earlier in the run, exactly the declared object. */
  lemma {:induction false} ReadyFollowsOwnCheck(es: seq<Event>, i: nat, h: ArtifactHash) returns (c: nat)
    requires i < |es| && !IsReady(At(es, i).sets, h) && IsReady(At(es, i + 1).sets, h)
    ensures es[i].Finish? && c < i && es[c] == Read(es[i].w, false) && es[i].w in At(es, i).workers
    ensures h == ArtifactFor(At(es, i).workers[es[i].w])
    ensures es[i].w in At(es, c).workers && At(es, c).workers[es[i].w].job == At(es, i).workers[es[i].w].job
            && At(es, c).workers[es[i].w].seen == At(es, i).workers[es[i].w].seen
    ensures StoredExactly(At(es, c).objects, At(es, i + 1).sets[h].file)
  {
    hide Next, StoredExactly, TableInv;
    OnlyCompletionMakesReady(At(es, i), es[i], h);
    var w := es[i].w;
    c := CheckedAt(es, i, w);
    RunKeepsInv(es, i);
    assert WorkerOk(At(es, i).sets, At(es, i).workers[w]);
    StepEvolves(es, i, h);
  }

  // ---- Where workers and rows come from

  /** Jobs are fixed when a worker is spawned. */
  lemma JobsAreKept(s: State, e: Event, w: nat)
    requires w in Next(s, e).workers && !(e.Spawn? && e.w == w && w !in s.workers)
    ensures w in s.workers && Next(s, e).workers[w].job == s.workers[w].job
  {
    hide Complete, Admit, Withdraw, Fail, FailReady, RecordFailure, StoredExactly, HeadMatches, KeyOf, ArtifactOf;
  }

  /** A new row is the declaration of a publishing worker. */
  lemma NewRowsAreStaged(s: State, e: Event, h: ArtifactHash)
    requires h in Next(s, e).sets && h !in s.sets
    ensures e.Enter? && HasPhase(s, e.w, Begin) && s.workers[e.w].job.PublishJob?
    ensures var job := s.workers[e.w].job;
            && h == ArtifactOf(job.p, job.t) && Next(s, e).sets[h].presentation == job.t.presentation
            && Sealed(job.p, job.output) && Next(s, e).sets[h].file == FileOf(job.p, job.t, job.output.result)
  {
    hide Load, StoredExactly, HeadMatches, Sealed, ValidDeployment, DeclarationMatches;
    match e
    case Enter(w, now) =>
      if HasPhase(s, w, Begin) && s.workers[w].job.PublishJob? {
        var job := s.workers[w].job;
        StageExact(s.sets, job.p, StageRequestOf(job.p, job.t, job.output.result), [FileOf(job.p, job.t, job.output.result)], now);
      }
    case Finish(w, now) =>
      if HasPhase(s, w, Completing) {
        var job := s.workers[w].job;
        CompleteExact(s.sets, job.p, job.t.outputKind, job.t.format, KeyOf(job.p, job.t), now);
      }
    case _ =>
  }
}
