/** Any number of publishing and reconciling workers over one artifact table and
    one object store, interleaved step by step with crashes, late network writes,
    operator withdrawals and, where a result allows it, outside corruption.

    One event is one transaction, one storage request or one environment action.
    Clock readings are arbitrary. An event that is not enabled changes nothing, so
    every sequence of events is a run. */
module PublicationProtocol {
  import opened Core
  import opened Artifacts
  import opened Publication

  datatype Job =
    | PublishJob(p: Recipe, t: Target, output: Output)
    | ReconcileJob(p: Recipe, t: Target)

  datatype Phase =
    | Begin | Sending | Waiting | Heading | Reading | Cleaning | Completing
    | Failing | CleanupFailing | Finished(ok: bool)

  /** `seen` is the row the worker staged, resumed or loaded. */
  datatype Worker = Worker(job: Job, phase: Phase, seen: Option<Row>)

  datatype Put = Put(key: ObjectKey, body: Object)

  /** `sent` holds every write request ever issued: any of them may take effect
      at any later time, any number of times, even after its worker is gone. */
  datatype State = State(sets: Table, objects: Store, sent: set<Put>, workers: map<nat, Worker>)

  datatype Event =
    | Spawn(w: nat, job: Job)
    | Crash(w: nat)
    | Enter(w: nat, now: int)
    | Send(w: nat)
    | Land(put: Put)
    | Ack(w: nat, ok: bool)
    | Head(w: nat, fault: bool)
    | Read(w: nat, fault: bool)
    | Cleanup(w: nat, fault: bool)
    | Finish(w: nat, now: int)
    | Record(w: nat, now: int)
    | Operator(h: ArtifactHash, reason: Option<string>, now: int)
    | Corrupt(key: ObjectKey, content: Option<Object>)

  const INIT := State(map[], map[], {}, map[])

  function ArtifactFor(worker: Worker): ArtifactHash {
    ArtifactOf(worker.job.p, worker.job.t)
  }

  predicate HasPhase(s: State, w: nat, phase: Phase) {
    w in s.workers && s.workers[w].phase == phase && (phase.Begin? || s.workers[w].seen.Some?)
  }

  function Goto(s: State, w: nat, phase: Phase): State
    requires w in s.workers
  {
    s.(workers := s.workers[w := s.workers[w].(phase := phase)])
  }

  predicate HeadMatches(objects: Store, file: FileRow) {
    && file.objectKey in objects
    && objects[file.objectKey].contentType == file.contentType
    && |objects[file.objectKey].bytes| == file.byteLen
  }

  /** Staging for a publication, loading for a reconciliation. */
  function Admit(sets: Table, job: Job, now: int): (Table, Option<Row>) {
    if !ValidDeployment(job.p, job.t) then (sets, None)
    else if job.ReconcileJob? then
      match Load(sets, job.p, job.t.outputKind, job.t.format)
      case Ok(Some(row)) => (sets, if DeclarationMatches(job.p, job.t, row) then Some(row) else None)
      case _ => (sets, None)
    else if !Sealed(job.p, job.output) then (sets, None)
    else
      var (after, r) := StageOrResume(sets, job.p, StageRequestOf(job.p, job.t, job.output.result),
                                      [FileOf(job.p, job.t, job.output.result)], now);
      (after, if r.Ok? then Some(r.value) else None)
  }

  function EnterStep(s: State, w: nat, now: int): State
    requires w in s.workers
  {
    var worker := s.workers[w];
    var (sets, row) := Admit(s.sets, worker.job, now);
    var phase := if row.None? then Finished(false)
                 else if worker.job.PublishJob? && !row.value.status.Ready? then Sending else Heading;
    s.(sets := sets, workers := s.workers[w := Worker(worker.job, phase, row)])
  }

  function FinishStep(s: State, w: nat, now: int): State
    requires w in s.workers
  {
    var job := s.workers[w].job;
    var (sets, r) := Complete(s.sets, job.p, job.t.outputKind, job.t.format, KeyOf(job.p, job.t), now);
    Goto(s.(sets := sets), w, Finished(r == Ok(true)))
  }

  function Next(s: State, e: Event): State {
    match e
    case Spawn(w, job) =>
      if w in s.workers then s else s.(workers := s.workers[w := Worker(job, Begin, None)])
    case Crash(w) =>
      s.(workers := s.workers - {w})
    case Enter(w, now) =>
      if HasPhase(s, w, Begin) then EnterStep(s, w, now) else s
    case Send(w) =>
      if HasPhase(s, w, Sending) && s.workers[w].job.PublishJob? then
        var job := s.workers[w].job;
        Goto(s.(sent := s.sent + {Put(KeyOf(job.p, job.t), Object(job.p.mediaType, job.output.bytes))}), w, Waiting)
      else s
    case Land(put) =>
      if put in s.sent then s.(objects := s.objects[put.key := put.body]) else s
    case Ack(w, ok) =>
      if HasPhase(s, w, Waiting) then Goto(s, w, if ok then Heading else Failing) else s
    case Head(w, fault) =>
      if HasPhase(s, w, Heading)
      then Goto(s, w, if !fault && HeadMatches(s.objects, s.workers[w].seen.value.file) then Reading else Failing) else s
    case Read(w, fault) =>
      if HasPhase(s, w, Reading)
      then Goto(s, w, if fault || !StoredExactly(s.objects, s.workers[w].seen.value.file) then Failing
                      else if s.workers[w].job.PublishJob? then Cleaning else Completing) else s
    case Cleanup(w, fault) =>
      if HasPhase(s, w, Cleaning) then Goto(s, w, if fault then CleanupFailing else Completing) else s
    case Finish(w, now) =>
      if HasPhase(s, w, Completing) then FinishStep(s, w, now) else s
    case Record(w, now) =>
      if HasPhase(s, w, Failing)
      then Goto(s.(sets := RecordFailure(s.sets, ArtifactFor(s.workers[w]), RevisionOf(s.workers[w].seen.value), now)), w, Finished(false))
      else if HasPhase(s, w, CleanupFailing)
      then Goto(s.(sets := Fail(s.sets, ArtifactFor(s.workers[w]), now).0), w, Finished(false))
      else s
    case Operator(h, reason, now) =>
      s.(sets := Withdraw(s.sets, h, reason, now).0)
    case Corrupt(key, content) =>
      s.(objects := if content.Some? then s.objects[key := content.value] else s.objects - {key})
  }

  /** The state after the first `i` events of a run. */
  function At(es: seq<Event>, i: nat): State
    requires i <= |es|
  {
    if i == 0 then INIT else Next(At(es, i - 1), es[i - 1])
  }

  // ---- The table invariant

  predicate SameDeclaration(a: Row, b: Row) {
    && SameOutput(a, b) && a.format == b.format && a.postprocess == b.postprocess && a.processing == b.processing
    && a.objectKey == b.objectKey && a.presentation == b.presentation && a.file == b.file
  }

  /** A row can only stay as it is, take a strictly later timestamp, or be
      superseded, and nothing follows supersession. */
  predicate Newer(a: Row, b: Row) {
    && SameDeclaration(a, b)
    && (a == b || (!a.status.Superseded? && (b.status.Superseded? || b.updatedAt > a.updatedAt)))
  }

  predicate Evolves(before: Table, after: Table) {
    forall h :: h in before ==> h in after && Newer(before[h], after[h])
  }

  predicate RowOk(h: ArtifactHash, row: Row) {
    && row.source == h.source && row.config == h.config && row.options == h.options
    && row.outputKind == h.outputKind && row.format == h.format
    && row.postprocess == Some(h.processing) && row.processing == Some(h.processing)
    && h.processing.recipe.supported && FileAllowed(h.processing.recipe, row.file)
    && row.objectKey == row.file.objectKey == ObjectKey(h, row.file.logicalPath)
    && (row.status.Superseded? <==> row.supersededAt.Some?)
    && (!row.status.Superseded? ==> Unmarked(row))
  }

  predicate RowsOk(sets: Table) {
    forall h :: h in sets ==> RowOk(h, sets[h])
  }

  predicate OneReady(sets: Table) {
    forall a, b :: a in sets && b in sets && sets[a].status.Ready? && sets[b].status.Ready? && SameOutput(sets[a], sets[b]) ==> a == b
  }

  /** A replaced row points at another row for the same output. */
  predicate PointersOk(sets: Table) {
    forall h :: h in sets && sets[h].supersededBy.Some? ==>
      var next := sets[h].supersededBy.value;
      next in sets && SameOutput(sets[next], sets[h])
  }

  ghost predicate Ranked(sets: Table, rank: map<ArtifactHash, nat>) {
    && sets.Keys <= rank.Keys
    && forall h :: h in sets && sets[h].supersededBy.Some? ==>
         var next := sets[h].supersededBy.value;
         next in rank && rank[h] < rank[next]
  }

  ghost predicate Acyclic(sets: Table) {
    exists rank :: Ranked(sets, rank)
  }

  ghost predicate TableInv(sets: Table) {
    RowsOk(sets) && OneReady(sets) && PointersOk(sets) && Acyclic(sets)
  }

  // ---- Each transaction keeps the table invariant

  /** An update of one row that keeps its declaration, its pointer, and does not
      make it ready keeps the invariant. */
  lemma UpdateKeepsTable(sets: Table, h: ArtifactHash, row: Row)
    requires TableInv(sets) && h in sets
    requires SameDeclaration(sets[h], row) && RowOk(h, row) && !row.status.Ready?
    requires row.supersededBy.Some? ==> row.supersededBy == sets[h].supersededBy
    ensures TableInv(sets[h := row])
  {
    var rank :| Ranked(sets, rank);
    assert Ranked(sets[h := row], rank);
  }

  lemma FailKeepsTable(sets: Table, h: ArtifactHash, now: int)
    requires TableInv(sets)
    ensures TableInv(Fail(sets, h, now).0) && Evolves(sets, Fail(sets, h, now).0)
  {
    if Fail(sets, h, now).1 {
      UpdateKeepsTable(sets, h, sets[h].(status := UploadFailed, updatedAt := Advance(sets[h].updatedAt, now)));
    }
  }

  lemma FailReadyKeepsTable(sets: Table, h: ArtifactHash, expected: int, now: int)
    requires TableInv(sets)
    ensures TableInv(FailReady(sets, h, expected, now).0) && Evolves(sets, FailReady(sets, h, expected, now).0)
  {
    if FailReady(sets, h, expected, now).1 {
      UpdateKeepsTable(sets, h, sets[h].(status := UploadFailed, updatedAt := Advance(sets[h].updatedAt, now)));
    }
  }

  lemma {:induction false} RecordKeepsTable(sets: Table, h: ArtifactHash, revision: Option<int>, now: int)
    requires TableInv(sets)
    ensures TableInv(RecordFailure(sets, h, revision, now)) && Evolves(sets, RecordFailure(sets, h, revision, now))
  {
    FailKeepsTable(sets, h, now);
    if revision.Some? { FailReadyKeepsTable(sets, h, revision.value, now); }
  }

  lemma WithdrawKeepsTable(sets: Table, h: ArtifactHash, reason: Option<string>, now: int)
    requires TableInv(sets)
    ensures TableInv(Withdraw(sets, h, reason, now).0) && Evolves(sets, Withdraw(sets, h, reason, now).0)
  {
    if Withdraw(sets, h, reason, now).1 {
      UpdateKeepsTable(sets, h, Withdraw(sets, h, reason, now).0[h]);
    }
  }

  lemma InsertKeepsRows(sets: Table, h: ArtifactHash, row: Row)
    requires RowsOk(sets) && h !in sets && RowOk(h, row) && row.status.Staged?
    ensures RowsOk(sets[h := row]) && Evolves(sets, sets[h := row])
  {
    hide RowOk;
  }

  lemma InsertKeepsPointers(sets: Table, h: ArtifactHash, row: Row)
    requires OneReady(sets) && PointersOk(sets) && Acyclic(sets) && h !in sets && RowOk(h, row) && row.status.Staged?
    ensures OneReady(sets[h := row]) && PointersOk(sets[h := row]) && Acyclic(sets[h := row])
  {
    var rank :| Ranked(sets, rank);
    assert Ranked(sets[h := row], rank[h := 0]);
  }

  lemma InsertKeepsTable(sets: Table, h: ArtifactHash, row: Row)
    requires TableInv(sets) && h !in sets && RowOk(h, row) && row.status.Staged?
    ensures TableInv(sets[h := row]) && Evolves(sets, sets[h := row])
  {
    hide RowsOk, OneReady, PointersOk, Acyclic, Evolves, RowOk;
    InsertKeepsRows(sets, h, row);
    InsertKeepsPointers(sets, h, row);
  }

  lemma {:induction false} RankBound(rank: map<ArtifactHash, nat>) returns (bound: nat)
    ensures forall k :: k in rank ==> rank[k] < bound
  {
    if rank == map[] {
      return 0;
    }
    var k :| k in rank;
    var rest := rank - {k};
    assert |rest| < |rank| by { assert rest.Keys == rank.Keys - {k}; assert |rest.Keys| < |rank.Keys|; }
    bound := RankBound(rest);
    assert forall j :: j in rank ==> j == k || j in rest;
    bound := if rank[k] < bound then bound else rank[k] + 1;
  }

  /** `h` became ready and its ready rivals were superseded by it. */
  ghost predicate Completed(sets: Table, after: Table, h: ArtifactHash, now: int) {
    && h in sets && after.Keys == sets.Keys
    && Pending(sets[h]) && Unmarked(sets[h])
    && after[h] == sets[h].(status := Ready, updatedAt := after[h].updatedAt)
    && after[h].updatedAt > sets[h].updatedAt
    && forall k :: k in sets && k != h ==>
         after[k] == if sets[k].status.Ready? && SameOutput(sets[k], sets[h]) then Replaced(sets[k], h, now) else sets[k]
  }

  lemma CompletionKeepsRows(sets: Table, after: Table, h: ArtifactHash, now: int)
    requires RowsOk(sets) && Completed(sets, after, h, now)
    ensures RowsOk(after)
  {
  }

  lemma CompletionEvolves(sets: Table, after: Table, h: ArtifactHash, now: int)
    requires RowsOk(sets) && Completed(sets, after, h, now)
    ensures Evolves(sets, after)
  {
  }

  lemma CompletionKeepsOneReady(sets: Table, after: Table, h: ArtifactHash, now: int)
    requires OneReady(sets) && Completed(sets, after, h, now)
    ensures OneReady(after)
  {
    forall a, b | a in after && b in after && after[a].status.Ready? && after[b].status.Ready? && SameOutput(after[a], after[b])
      ensures a == b
    {
      if a != h { StillReady(sets, after, h, now, a); }
      if b != h { StillReady(sets, after, h, now, b); }
    }
  }

  /** Whatever else is ready after a completion was so before, for another output. */
  lemma StillReady(sets: Table, after: Table, h: ArtifactHash, now: int, k: ArtifactHash)
    requires Completed(sets, after, h, now) && k in after && after[k].status.Ready? && k != h
    ensures after[k] == sets[k] && !SameOutput(after[k], after[h]) && !SameOutput(after[h], after[k])
  {
  }

  lemma CompletionKeepsPointers(sets: Table, after: Table, h: ArtifactHash, now: int)
    requires PointersOk(sets) && Completed(sets, after, h, now)
    ensures PointersOk(after)
  {
    forall k | k in after && after[k].supersededBy.Some?
      ensures var next := after[k].supersededBy.value; next in after && SameOutput(after[next], after[k])
    {
      if sets[k].supersededBy.Some? && after[k] == sets[k] { assert SameOutput(sets[sets[k].supersededBy.value], sets[k]); }
    }
  }

  /** The new pointers lead to the completed row, which is ranked above everything. */
  lemma CompletionKeepsRank(sets: Table, after: Table, h: ArtifactHash, now: int)
    requires Acyclic(sets) && Completed(sets, after, h, now)
    ensures Acyclic(after)
  {
    hide Completed;
    var rank :| Ranked(sets, rank);
    var bound := RankBound(rank);
    CompletedPointers(sets, after, h, now);
    assert Ranked(after, rank[h := bound]);
  }

  lemma CompletedPointers(sets: Table, after: Table, h: ArtifactHash, now: int)
    requires Completed(sets, after, h, now)
    ensures h in sets && after.Keys == sets.Keys && after[h].supersededBy.None?
    ensures forall k :: k in sets ==> after[k].supersededBy == sets[k].supersededBy || after[k].supersededBy == Some(h)
  {
    hide SameOutput;
  }

  lemma {:induction false} CompletionKeepsTable(sets: Table, after: Table, h: ArtifactHash, now: int)
    requires TableInv(sets) && Completed(sets, after, h, now)
    ensures TableInv(after) && Evolves(sets, after)
  {
    hide RowsOk, OneReady, PointersOk, Acyclic, Evolves, Completed;
    CompletionKeepsRows(sets, after, h, now);
    CompletionEvolves(sets, after, h, now);
    CompletionKeepsOneReady(sets, after, h, now);
    CompletionKeepsPointers(sets, after, h, now);
    CompletionKeepsRank(sets, after, h, now);
  }

  lemma CompleteKeepsTable(sets: Table, p: Recipe, outputKind: string, format: string, key: ObjectKey, now: int)
    requires TableInv(sets)
    ensures TableInv(Complete(sets, p, outputKind, format, key, now).0)
    ensures Evolves(sets, Complete(sets, p, outputKind, format, key, now).0)
  {
    var h := HashOf(p, outputKind, format);
    var after := Complete(sets, p, outputKind, format, key, now).0;
    CompleteExact(sets, p, outputKind, format, key, now);
    if after != sets {
      assert Completed(sets, after, h, now);
      CompletionKeepsTable(sets, after, h, now);
    }
  }

  lemma StagingKeepsTable(sets: Table, p: Recipe, a: StageRequest, file: FileRow, now: int)
    requires TableInv(sets) && a.objectKey == ObjectKey(HashOf(p, a.outputKind, a.format), file.logicalPath)
    ensures var after := StageOrResume(sets, p, a, [file], now).0; TableInv(after) && Evolves(sets, after)
  {
    StageExact(sets, p, a, [file], now);
    EvolvesReflexive(sets);
    var h := HashOf(p, a.outputKind, a.format);
    if StageOrResume(sets, p, a, [file], now).1.Ok? && h !in sets {
      StagedRowIsOk(sets, p, a, file, now);
      hide TableInv, Evolves, RowOk;
      InsertKeepsTable(sets, h, FreshRow(p, a, file, now));
    }
  }

  lemma StagedRowIsOk(sets: Table, p: Recipe, a: StageRequest, file: FileRow, now: int)
    requires a.objectKey == ObjectKey(HashOf(p, a.outputKind, a.format), file.logicalPath)
    requires HashOf(p, a.outputKind, a.format) !in sets && StageOrResume(sets, p, a, [file], now).1.Ok?
    ensures var h, row := HashOf(p, a.outputKind, a.format), FreshRow(p, a, file, now);
            RowOk(h, row) && row.status.Staged? && StageOrResume(sets, p, a, [file], now).0 == sets[h := row]
  {
  }

  lemma AdmitKeepsTable(sets: Table, job: Job, now: int)
    requires TableInv(sets)
    ensures var (after, row) := Admit(sets, job, now);
            && TableInv(after) && Evolves(sets, after)
            && (row.Some? ==>
                  var h := ArtifactOf(job.p, job.t);
                  && h in after && after[h] == row.value && Live(row.value)
                  && row.value.file.objectKey == KeyOf(job.p, job.t)
                  && ValidDeployment(job.p, job.t)
                  && (job.PublishJob? ==> Sealed(job.p, job.output) && row.value.file == FileOf(job.p, job.t, job.output.result)))
  {
    hide TableInv, Evolves, ValidDeployment, Sealed, StageOrResume;
    EvolvesReflexive(sets);
    if job.PublishJob? {
      var a, file := StageRequestOf(job.p, job.t, job.output.result), FileOf(job.p, job.t, job.output.result);
      StageExact(sets, job.p, a, [file], now);
      StagingKeepsTable(sets, job.p, a, file, now);
    }
  }

  lemma EvolvesReflexive(sets: Table)
    ensures Evolves(sets, sets)
  {
  }

  lemma {:induction false} NextKeepsTable(s: State, e: Event)
    requires TableInv(s.sets)
    ensures TableInv(Next(s, e).sets) && Evolves(s.sets, Next(s, e).sets)
  {
    hide TableInv, Evolves, Complete, Admit, Withdraw, Fail, FailReady;
    assert Evolves(s.sets, s.sets) by { EvolvesReflexive(s.sets); }
    match e
    case Enter(w, now) => if w in s.workers { AdmitKeepsTable(s.sets, s.workers[w].job, now); }
    case Finish(w, now) =>
      if w in s.workers {
        var job := s.workers[w].job;
        CompleteKeepsTable(s.sets, job.p, job.t.outputKind, job.t.format, KeyOf(job.p, job.t), now);
      }
    case Record(w, now) =>
      if w in s.workers && s.workers[w].seen.Some? {
        RecordKeepsTable(s.sets, ArtifactFor(s.workers[w]), RevisionOf(s.workers[w].seen.value), now);
        FailKeepsTable(s.sets, ArtifactFor(s.workers[w]), now);
      }
    case Operator(h, reason, now) => WithdrawKeepsTable(s.sets, h, reason, now);
    case _ =>
  }

  lemma EmptyTable()
    ensures TableInv(INIT.sets)
  {
    assert Ranked(INIT.sets, map[]);
  }

  lemma {:induction false} RunKeepsTable(es: seq<Event>, i: nat)
    requires i <= |es|
    ensures TableInv(At(es, i).sets)
  {
    hide Next, TableInv;
    if i == 0 {
      EmptyTable();
    } else {
      RunKeepsTable(es, i - 1);
      NextKeepsTable(At(es, i - 1), es[i - 1]);
    }
  }

  // ---- Readiness, supersession and the pointers, over whole runs

  /** At most one artifact per source, configuration, options and output kind is
      ready, after any run of any number of workers and recipes. */
  lemma {:induction false} OneReadyPerOutput(es: seq<Event>, i: nat, a: ArtifactHash, b: ArtifactHash)
    requires i <= |es|
    requires var sets := At(es, i).sets;
             a in sets && b in sets && sets[a].status.Ready? && sets[b].status.Ready? && SameOutput(sets[a], sets[b])
    ensures a == b
  {
    RunKeepsTable(es, i);
  }

  lemma NewerTransitive(a: Row, b: Row, c: Row)
    requires Newer(a, b) && Newer(b, c)
    ensures Newer(a, c)
  {
  }

  lemma {:induction false} StepEvolves(es: seq<Event>, i: nat, h: ArtifactHash)
    requires i < |es| && h in At(es, i).sets
    ensures h in At(es, i + 1).sets && Newer(At(es, i).sets[h], At(es, i + 1).sets[h])
  {
    hide Next, TableInv, Newer;
    RunKeepsTable(es, i);
    NextKeepsTable(At(es, i), es[i]);
  }

  lemma {:induction false} RunEvolves(es: seq<Event>, i: nat, j: nat, h: ArtifactHash)
    requires i <= j <= |es| && h in At(es, i).sets
    ensures h in At(es, j).sets && Newer(At(es, i).sets[h], At(es, j).sets[h])
  {
    hide At, Next;
    if i < j {
      RunEvolves(es, i, j - 1, h);
      StepEvolves(es, j - 1, h);
      NewerTransitive(At(es, i).sets[h], At(es, j - 1).sets[h], At(es, j).sets[h]);
    }
  }

  /** A declaration never changes, and a superseded row never changes at all. */
  lemma {:induction false} SupersededIsForever(es: seq<Event>, i: nat, j: nat, h: ArtifactHash)
    requires i <= j <= |es| && h in At(es, i).sets
    ensures h in At(es, j).sets && SameDeclaration(At(es, i).sets[h], At(es, j).sets[h])
    ensures At(es, i).sets[h].status.Superseded? ==> At(es, j).sets[h] == At(es, i).sets[h]
  {
    RunEvolves(es, i, j, h);
  }

  /** Rows visited by following `superseded_by` from `path[0]`. */
  predicate Follows(sets: Table, path: seq<ArtifactHash>) {
    && path != []
    && (forall i :: 0 <= i < |path| ==> path[i] in sets)
    && (forall i :: 0 <= i < |path| - 1 ==> sets[path[i]].supersededBy == Some(path[i + 1]))
  }

  lemma {:induction false} ChainFrom(sets: Table, rank: map<ArtifactHash, nat>, bound: nat, h: ArtifactHash)
    returns (path: seq<ArtifactHash>)
    requires Ranked(sets, rank) && PointersOk(sets) && h in sets
    requires forall k :: k in rank ==> rank[k] < bound
    ensures Follows(sets, path) && path[0] == h && sets[path[|path| - 1]].supersededBy.None?
    ensures forall i :: 0 <= i < |path| ==> SameOutput(sets[path[i]], sets[h])
    decreases bound - rank[h]
  {
    if sets[h].supersededBy.None? {
      path := [h];
    } else {
      var rest := ChainFrom(sets, rank, bound, sets[h].supersededBy.value);
      path := [h] + rest;
      forall i | 0 <= i < |path| - 1
        ensures sets[path[i]].supersededBy == Some(path[i + 1])
      {
        if i > 0 { assert path[i] == rest[i - 1] && path[i + 1] == rest[i]; }
      }
    }
  }

  /** In every reachable state, following `superseded_by` from any row stays on
      rows for the same output and ends, at a row that is not superseded or that
      an operator withdrew. */
  lemma {:induction false} SupersessionEnds(es: seq<Event>, i: nat, h: ArtifactHash) returns (path: seq<ArtifactHash>)
    requires i <= |es| && h in At(es, i).sets
    ensures var sets := At(es, i).sets;
            && Follows(sets, path) && path[0] == h
            && (forall k :: 0 <= k < |path| ==> SameOutput(sets[path[k]], sets[h]))
            && var last := sets[path[|path| - 1]];
               !last.status.Superseded? || (last.supersededBy.None? && last.supersededAt.Some?)
  {
    RunKeepsTable(es, i);
    var sets := At(es, i).sets;
    var rank :| Ranked(sets, rank);
    var bound := RankBound(rank);
    path := ChainFrom(sets, rank, bound, h);
  }
}
