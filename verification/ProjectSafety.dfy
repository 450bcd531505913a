/** Binding agreement and guaranteed repair: a request is bound at most once, every
    execution that publishes it publishes the same bytes, and from every reachable
    state its record can be brought back to readiness. */
module ProjectSafety {
  import opened Core
  import opened Artifacts
  import opened Publication
  import opened Recovery
  import opened ProjectProtocol
  import PP = PublicationProtocol
  import PublicationSafety

  // ---- What a binding means

  predicate IsBound(s: State, r: Request) {
    RequestId(r) in s.requests && s.requests[RequestId(r)].processing.Some? && s.requests[RequestId(r)].snapshot.Some?
  }

  /** The request is bound to this recipe and this accepted result. */
  predicate BoundTo(s: State, r: Request, p: Recipe, result: ResultDoc) {
    && RequestId(r) in s.requests
    && s.requests[RequestId(r)].processing == Some(ProcessingHash(p))
    && s.requests[RequestId(r)].snapshot == Some(SnapshotId(ProcessingHash(p), InvocationOf(p), result))
  }

  ghost predicate RowOk(d: Deployment, s: State, id: RequestId) {
    id in s.requests &&
    var row := s.requests[id];
    && row.json == id.request
    && (row.processing.Some? <==> row.snapshot.Some?)
    && (row.snapshot.Some? ==>
          && row.snapshot.value in s.snapshots && row.processing.value in s.recipes
          && row.snapshot.value.processing == row.processing.value
          && row.snapshot.value.invocation == InvocationOf(row.processing.value.recipe)
          && PreparedFor(d, id.request, row.processing.value.recipe))
  }

  predicate SnapshotOk(id: SnapshotId, bytes: seq<byte>) {
    Sealed(id.processing.recipe, Output(id.processing, id.invocation, id.result, bytes))
  }

  ghost predicate ExecOk(d: Deployment, s: State, exec: Execution) {
    match exec.phase
    case Accepted(p, output) => Sealed(p, output) && PreparedFor(d, exec.request, p)
    case Persisted(p, output) =>
      Sealed(p, output) && PreparedFor(d, exec.request, p) && SnapshotOf(output) in s.snapshots
    case Publishing(p, output) => Sealed(p, output) && BoundTo(s, exec.request, p, output.result)
    case Recovering(p, snapshot) => snapshot.Some? && BoundTo(s, exec.request, p, snapshot.value.result) && snapshot.value.processing == ProcessingHash(p) && snapshot.value.invocation == InvocationOf(p)
    case Reconciling(p, snapshot, _) => snapshot.Some? && BoundTo(s, exec.request, p, snapshot.value.result) && snapshot.value.processing == ProcessingHash(p) && snapshot.value.invocation == InvocationOf(p)
    case _ => true
  }

  predicate JobFor(d: Deployment, s: State, r: Request, job: PP.Job) {
    && IsBound(s, r) && s.requests[RequestId(r)].processing == Some(ProcessingHash(job.p))
    && job.t == TargetOf(d, r)
    && (job.PublishJob? ==> BoundTo(s, r, job.p, job.output.result) && Sealed(job.p, job.output))
  }

  /** The artifact row is the one request `r` is bound to. */
  predicate RowFor(d: Deployment, s: State, r: Request, h: ArtifactHash, row: Row) {
    IsBound(s, r) &&
    var p, result := s.requests[RequestId(r)].processing.value.recipe, s.requests[RequestId(r)].snapshot.value.result;
    && h == ArtifactOf(p, TargetOf(d, r))
    && row.presentation == TargetOf(d, r).presentation
    && row.file == FileOf(p, TargetOf(d, r), result)
  }

  ghost predicate RequestsOk(d: Deployment, s: State) {
    forall id :: id in s.requests ==> RowOk(d, s, id)
  }

  ghost predicate SnapshotsOk(s: State) {
    forall id :: id in s.snapshots ==> SnapshotOk(id, s.snapshots[id])
  }

  ghost predicate ExecsOk(d: Deployment, s: State) {
    forall x :: x in s.execs ==> ExecOk(d, s, s.execs[x])
  }

  ghost predicate JobsOk(d: Deployment, s: State) {
    forall w :: w in s.pub.workers ==> exists r :: JobFor(d, s, r, s.pub.workers[w].job)
  }

  ghost predicate RowsDeclared(d: Deployment, s: State) {
    forall h :: h in s.pub.sets ==> exists r :: RowFor(d, s, r, h, s.pub.sets[h])
  }

  ghost predicate Inv(d: Deployment, s: State) {
    && RequestsOk(d, s) && SnapshotsOk(s) && ExecsOk(d, s) && JobsOk(d, s) && RowsDeclared(d, s)
    && PublicationSafety.Inv(s.pub)
  }

  // ---- Bindings and snapshots only grow

  /** Request rows stay, a bound row stays as it is, snapshots stay as they are. */
  ghost predicate Grows(before: State, after: State) {
    && (forall id :: id in before.requests ==>
          && id in after.requests && after.requests[id].json == before.requests[id].json
          && (before.requests[id].processing.Some? && before.requests[id].snapshot.Some? ==> after.requests[id] == before.requests[id]))
    && (forall id :: id in before.snapshots ==> id in after.snapshots && after.snapshots[id] == before.snapshots[id])
    && before.recipes <= after.recipes
  }

  lemma BindGrows(s: State, x: nat)
    requires x in s.execs && s.execs[x].phase.Persisted?
    ensures Grows(s, BindStep(s, x))
  {
  }

  lemma ActGrows(d: Deployment, s: State, x: nat, action: Action)
    requires x in s.execs
    ensures Grows(s, ActStep(d, s, x, action))
  {
    hide PP.Next, AfterRead, TargetOf, PreparedFor, Sealed, BindStep;
    if action.Bind? && s.execs[x].phase.Persisted? { BindGrows(s, x); }
  }

  lemma NextGrows(d: Deployment, s: State, e: Event)
    ensures Grows(s, Next(d, s, e))
  {
    hide PP.Next, ActStep;
    if e.Act? && e.x in s.execs { ActGrows(d, s, e.x, e.action); }
  }

  lemma GrowthKeepsExec(d: Deployment, before: State, after: State, exec: Execution)
    requires Grows(before, after) && ExecOk(d, before, exec)
    ensures ExecOk(d, after, exec)
  {
    hide Sealed, PreparedFor;
  }

  lemma GrowthKeepsJob(d: Deployment, before: State, after: State, r: Request, job: PP.Job)
    requires Grows(before, after) && JobFor(d, before, r, job)
    ensures JobFor(d, after, r, job)
  {
    hide Sealed, TargetOf;
  }

  lemma GrowthKeepsRow(d: Deployment, before: State, after: State, r: Request, h: ArtifactHash, row: Row)
    requires Grows(before, after) && RowFor(d, before, r, h, row)
    ensures RowFor(d, after, r, h, row)
  {
    hide TargetOf, FileOf, ArtifactOf;
  }

  // ---- Each step keeps the invariant

  lemma OnlyPersistingStores(d: Deployment, s: State, e: Event)
    requires !(e.Act? && e.action.Persist?)
    ensures Next(d, s, e).snapshots == s.snapshots
  {
    hide PP.Next, AfterRead, TargetOf, PreparedFor, Sealed, BindRow;
  }

  lemma NextKeepsSnapshots(d: Deployment, s: State, e: Event)
    requires SnapshotsOk(s) && ExecsOk(d, s)
    ensures SnapshotsOk(Next(d, s, e))
  {
    hide PP.Next, AfterRead, TargetOf, PreparedFor;
    if !(e.Act? && e.action.Persist?) {
      hide Next;
      OnlyPersistingStores(d, s, e);
    } else if e.x in s.execs && s.execs[e.x].phase.Accepted? {
      assert ExecOk(d, s, s.execs[e.x]);
    }
  }

  /** Only enqueueing and binding write request rows. */
  lemma RequestsChange(d: Deployment, s: State, e: Event)
    requires !e.Enqueue? && !(e.Act? && e.action.Bind?)
    ensures Next(d, s, e).requests == s.requests
  {
    hide PP.Next, AfterRead, TargetOf, PreparedFor, Sealed;
  }

  lemma BindKeepsRequests(d: Deployment, s: State, x: nat)
    requires RequestsOk(d, s) && ExecsOk(d, s) && x in s.execs && s.execs[x].phase.Persisted?
    ensures RequestsOk(d, BindStep(s, x))
  {
    hide PreparedFor, ResultAllowed;
    assert ExecOk(d, s, s.execs[x]);
    forall id | id in BindStep(s, x).requests
      ensures RowOk(d, BindStep(s, x), id)
    {
      assert RowOk(d, s, id);
    }
  }

  lemma GrowthKeepsRequests(d: Deployment, s: State, after: State)
    requires RequestsOk(d, s) && Grows(s, after) && after.requests == s.requests
    ensures RequestsOk(d, after)
  {
    hide PreparedFor;
    forall id | id in after.requests ensures RowOk(d, after, id) {
      assert RowOk(d, s, id);
    }
  }

  lemma NextKeepsRequests(d: Deployment, s: State, e: Event)
    requires RequestsOk(d, s) && ExecsOk(d, s)
    ensures RequestsOk(d, Next(d, s, e))
  {
    hide PP.Next, AfterRead, TargetOf, PreparedFor, ResultAllowed, BindStep, Grows;
    if e.Enqueue? {
      forall id | id in Next(d, s, e).requests ensures RowOk(d, Next(d, s, e), id) {
        if id in s.requests { assert RowOk(d, s, id); }
      }
    } else if e.Act? && e.action.Bind? {
      if e.x in s.execs && s.execs[e.x].phase.Persisted? { BindKeepsRequests(d, s, e.x); }
    } else {
      hide Next, RequestsOk;
      RequestsChange(d, s, e);
      NextGrows(d, s, e);
      GrowthKeepsRequests(d, s, Next(d, s, e));
    }
  }

  /** The acting execution reaches a phase whose promise it can keep. */
  lemma ReopeningKeepsOwnExec(d: Deployment, s: State, x: nat)
    requires SnapshotsOk(s) && x in s.execs && ExecOk(d, s, s.execs[x]) && s.execs[x].phase.Reconciling?
    ensures x in ReopenStep(s, x).execs && ExecOk(d, ReopenStep(s, x), ReopenStep(s, x).execs[x])
  {
    hide PreparedFor, ResultAllowed;
    var snapshot := s.execs[x].phase.snapshot;
    if snapshot.Some? && snapshot.value in s.snapshots { assert SnapshotOk(snapshot.value, s.snapshots[snapshot.value]); }
  }

  lemma ReadingKeepsOwnExec(d: Deployment, s: State, x: nat)
    requires RequestsOk(d, s) && x in s.execs
    ensures ExecOk(d, s, Execution(s.execs[x].request, AfterRead(d, s, s.execs[x].request)))
  {
    hide PreparedFor, StoredRecipe, Readable;
    var r := s.execs[x].request;
    if RequestId(r) in s.requests {
      var row := s.requests[RequestId(r)];
      assert RowOk(d, s, RequestId(r));
      if row.processing.Some? { StoredRecipeExact(d, r, row.processing.value.recipe); }
    }
  }

  lemma BindingKeepsOwnExec(d: Deployment, s: State, x: nat)
    requires RequestsOk(d, s) && x in s.execs && ExecOk(d, s, s.execs[x]) && s.execs[x].phase.Persisted?
    ensures x in BindStep(s, x).execs && ExecOk(d, BindStep(s, x), BindStep(s, x).execs[x])
  {
    hide IsPrepared, ResultAllowed;
    var r := s.execs[x].request;
    if RequestId(r) in s.requests { assert RowOk(d, s, RequestId(r)); }
  }

  lemma PersistingKeepsOwnExec(d: Deployment, s: State, x: nat)
    requires x in s.execs && ExecOk(d, s, s.execs[x]) && s.execs[x].phase.Accepted?
    ensures x in PersistStep(s, x).execs && ExecOk(d, PersistStep(s, x), PersistStep(s, x).execs[x])
  {
    hide PreparedFor, Sealed;
  }

  lemma ActKeepsOwnExec(d: Deployment, s: State, x: nat, action: Action)
    requires RequestsOk(d, s) && SnapshotsOk(s) && x in s.execs && ExecOk(d, s, s.execs[x])
    requires x in ActStep(d, s, x, action).execs
    ensures ExecOk(d, ActStep(d, s, x, action), ActStep(d, s, x, action).execs[x])
  {
    hide RequestsOk, SnapshotsOk, Sealed, BoundTo, PP.Next, TargetOf, PreparedFor, BindStep, PersistStep, ReopenStep, AfterRead;
    var r, phase := s.execs[x].request, s.execs[x].phase;
    if action.ReadRow? && phase.Reading? {
      ReadingKeepsOwnExec(d, s, x);
      SameTablesSameExec(d, s, ActStep(d, s, x, action), Execution(r, AfterRead(d, s, r)));
    } else if action.Reopen? && phase.Reconciling? {
      if Failed(s, phase.w) { ReopeningKeepsOwnExec(d, s, x); }
    } else if action.Bind? && phase.Persisted? {
      BindingKeepsOwnExec(d, s, x);
    } else if action == Persist(true) && phase.Accepted? {
      PersistingKeepsOwnExec(d, s, x);
    } else {
      OtherActsKeepOwnExec(d, s, x, action);
    }
  }

  lemma OtherActsKeepOwnExec(d: Deployment, s: State, x: nat, action: Action)
    requires x in s.execs && ExecOk(d, s, s.execs[x]) && x in ActStep(d, s, x, action).execs
    requires var phase := s.execs[x].phase;
             && !(action.ReadRow? && phase.Reading?) && !(action.Reopen? && phase.Reconciling?)
             && !(action.Bind? && phase.Persisted?) && !(action == Persist(true) && phase.Accepted?)
    ensures ExecOk(d, ActStep(d, s, x, action), ActStep(d, s, x, action).execs[x])
  {
    hide PP.Next, TargetOf, PreparedFor, Sealed;
  }

  lemma SameTablesSameExec(d: Deployment, s: State, after: State, exec: Execution)
    requires ExecOk(d, s, exec) && after.requests == s.requests && after.snapshots == s.snapshots
    ensures ExecOk(d, after, exec)
  {
    hide PreparedFor, Sealed;
  }

  lemma OtherExecsAreKept(d: Deployment, s: State, e: Event, x: nat)
    requires x in Next(d, s, e).execs && !(e.Act? && e.x == x)
    ensures if e.Start? && e.x == x then Next(d, s, e).execs[x].phase.Reading?
            else x in s.execs && Next(d, s, e).execs[x] == s.execs[x]
  {
    hide PP.Next, AfterRead, TargetOf, Sealed, PreparedFor;
  }

  lemma {:induction false} NextKeepsExec(d: Deployment, s: State, e: Event, x: nat)
    requires RequestsOk(d, s) && SnapshotsOk(s) && ExecsOk(d, s) && x in Next(d, s, e).execs
    ensures ExecOk(d, Next(d, s, e), Next(d, s, e).execs[x])
  {
    if e.Act? && e.x == x {
      hide ExecOk, SnapshotsOk, RequestsOk, ActStep;
      ActKeepsOwnExec(d, s, x, e.action);
    } else {
      hide Next, RequestsOk, SnapshotsOk, Grows;
      OtherExecsAreKept(d, s, e, x);
      NextGrows(d, s, e);
      if !e.Start? || e.x != x {
        hide ExecOk;
        GrowthKeepsExec(d, s, Next(d, s, e), s.execs[x]);
      }
    }
  }

  // ---- The publication state under a project step

  /** A project step is at most one step of the publication protocol, and it
      spawns only jobs of the request the execution is bound to. */
  lemma PublicationStep(d: Deployment, s: State, e: Event) returns (pe: Option<PP.Event>)
    requires RequestsOk(d, s) && ExecsOk(d, s)
    ensures Next(d, s, e).pub == if pe.Some? then PP.Next(s.pub, pe.value) else s.pub
    ensures pe.Some? && pe.value.Spawn? ==> exists r :: JobFor(d, s, r, pe.value.job)
  {
    hide PP.Next, AfterRead, TargetOf, PreparedFor, Sealed;
    pe := None;
    match e
    case Publication(inner) => if !inner.Spawn? { pe := Some(inner); }
    case Act(x, action) =>
      if x in s.execs {
        var r, phase := s.execs[x].request, s.execs[x].phase;
        assert ExecOk(d, s, s.execs[x]);
        match action
        case StartPublication(w) =>
          if phase.Publishing? && w !in s.pub.workers {
            pe := Some(PP.Spawn(w, PP.PublishJob(phase.p, TargetOf(d, r), phase.output)));
            assert JobFor(d, s, r, pe.value.job);
          }
        case StartReconciliation(w) =>
          if phase.Recovering? && w !in s.pub.workers && PreparedFor(d, r, phase.p) {
            pe := Some(PP.Spawn(w, PP.ReconcileJob(phase.p, TargetOf(d, r))));
            assert JobFor(d, s, r, pe.value.job);
          }
        case _ =>
      }
    case _ =>
  }

  lemma NextKeepsJobs(d: Deployment, s: State, e: Event)
    requires RequestsOk(d, s) && ExecsOk(d, s) && JobsOk(d, s)
    ensures JobsOk(d, Next(d, s, e))
  {
    hide Next, PP.Next, Grows, JobFor, ExecOk;
    NextGrows(d, s, e);
    var pe := PublicationStep(d, s, e);
    var after := Next(d, s, e);
    forall w | w in after.pub.workers
      ensures exists r :: JobFor(d, after, r, after.pub.workers[w].job)
    {
      var job := after.pub.workers[w].job;
      if pe.Some? && pe.value.Spawn? && pe.value.w == w && w !in s.pub.workers {
        SpawnedJob(s.pub, pe.value);
      } else if pe.Some? {
        PublicationSafety.JobsAreKept(s.pub, pe.value, w);
      }
      var r :| JobFor(d, s, r, job);
      GrowthKeepsJob(d, s, after, r, job);
    }
  }

  lemma SpawnedJob(s: PP.State, e: PP.Event)
    requires e.Spawn? && e.w !in s.workers
    ensures e.w in PP.Next(s, e).workers && PP.Next(s, e).workers[e.w].job == e.job
  {
  }

  lemma {:induction false} NextKeepsDeclared(d: Deployment, s: State, e: Event)
    requires Inv(d, s)
    ensures RowsDeclared(d, Next(d, s, e))
  {
    hide Next, PP.Next, Grows, ExecOk, PublicationSafety.WorkersOk, PublicationSafety.SentOk, PP.TableInv;
    NextGrows(d, s, e);
    var pe := PublicationStep(d, s, e);
    var after := Next(d, s, e);
    if pe.Some? { PP.NextKeepsTable(s.pub, pe.value); }
    forall h | h in after.pub.sets
      ensures exists r :: RowFor(d, after, r, h, after.pub.sets[h])
    {
      var row := after.pub.sets[h];
      if h in s.pub.sets {
        var r :| RowFor(d, s, r, h, s.pub.sets[h]);
        assert RowFor(d, s, r, h, row);
        GrowthKeepsRow(d, s, after, r, h, row);
      } else {
        PublicationSafety.NewRowsAreStaged(s.pub, pe.value, h);
        var r :| JobFor(d, s, r, s.pub.workers[pe.value.w].job);
        assert RowFor(d, s, r, h, row);
        GrowthKeepsRow(d, s, after, r, h, row);
      }
    }
  }

  lemma {:induction false} NextKeepsInv(d: Deployment, s: State, e: Event)
    requires Inv(d, s)
    ensures Inv(d, Next(d, s, e))
  {
    NextKeepsRequests(d, s, e);
    NextKeepsSnapshots(d, s, e);
    NextKeepsJobs(d, s, e);
    NextKeepsDeclared(d, s, e);
    hide Next, PP.Next, ExecOk, RequestsOk, SnapshotsOk, JobsOk, RowsDeclared, PublicationSafety.Inv;
    forall x | x in Next(d, s, e).execs
      ensures ExecOk(d, Next(d, s, e), Next(d, s, e).execs[x])
    {
      NextKeepsExec(d, s, e, x);
    }
    var pe := PublicationStep(d, s, e);
    if pe.Some? { PublicationSafety.NextKeepsInv(s.pub, pe.value); }
  }

  lemma {:induction false} RunKeepsInv(d: Deployment, es: seq<Event>, i: nat)
    requires i <= |es|
    ensures Inv(d, At(d, es, i))
  {
    hide Next, PublicationSafety.Inv;
    if i == 0 {
      PublicationSafety.RunKeepsInv([], 0);
    } else {
      RunKeepsInv(d, es, i - 1);
      NextKeepsInv(d, At(d, es, i - 1), es[i - 1]);
    }
  }

  // ---- Binding agreement

  lemma {:induction false} RunGrows(d: Deployment, es: seq<Event>, i: nat, j: nat)
    requires i <= j <= |es|
    ensures Grows(At(d, es, i), At(d, es, j))
  {
    hide Next;
    if i < j {
      RunGrows(d, es, i, j - 1);
      NextGrows(d, At(d, es, j - 1), es[j - 1]);
    }
  }

  /** Recipe and snapshot are set together, and once set are never altered. */
  lemma BindingIsPermanent(d: Deployment, es: seq<Event>, i: nat, j: nat, r: Request)
    requires i <= j <= |es| && RequestId(r) in At(d, es, i).requests
    ensures var row := At(d, es, i).requests[RequestId(r)];
            && RequestId(r) in At(d, es, j).requests
            && (row.processing.Some? <==> row.snapshot.Some?)
            && (row.processing.Some? ==> At(d, es, j).requests[RequestId(r)] == row)
  {
    hide At, Next;
    RunKeepsInv(d, es, i);
    assert RowOk(d, At(d, es, i), RequestId(r));
    RunGrows(d, es, i, j);
  }

  predicate Acquires(phase: Phase) {
    phase.Acquiring? || phase.Accepted? || phase.Persisted?
  }

  predicate Reads(s: State, e: Event, x: nat) {
    e == Act(x, ReadRow) && x in s.execs && s.execs[x].phase.Reading?
  }

  lemma RecoveringStays(d: Deployment, s: State, e: Event, x: nat)
    requires x in Next(d, s, e).execs && !(e.Start? && e.x == x)
    requires x in s.execs ==> !Acquires(s.execs[x].phase) && !s.execs[x].phase.Reading?
    ensures x in s.execs && !Acquires(Next(d, s, e).execs[x].phase) && !Next(d, s, e).execs[x].phase.Reading?
  {
    hide PP.Next, TargetOf, Sealed, PreparedFor;
  }

  /** An execution that found its request bound never acquires, runs or persists
      anything until it is started afresh. */
  lemma {:induction false} BoundReadersNeverReacquire(d: Deployment, es: seq<Event>, i: nat, j: nat, x: nat)
    requires i < j <= |es| && Reads(At(d, es, i), es[i], x)
    requires IsBound(At(d, es, i), At(d, es, i).execs[x].request)
    requires forall k :: i < k < j ==> !(es[k].Start? && es[k].x == x)
    ensures x in At(d, es, j).execs ==>
              !Acquires(At(d, es, j).execs[x].phase) && !At(d, es, j).execs[x].phase.Reading?
  {
    hide PP.Next, TargetOf, Sealed, PreparedFor;
    if j > i + 1 {
      hide Next;
      BoundReadersNeverReacquire(d, es, i, j - 1, x);
      if x in At(d, es, j).execs {
        RecoveringStays(d, At(d, es, j - 1), es[j - 1], x);
      }
    }
  }

  predicate Publishes(s: State, x: nat, r: Request) {
    x in s.execs && s.execs[x].request == r && s.execs[x].phase.Publishing?
  }

  /** All executions that come to publish a request, first or recovering, whenever
      and however often, publish one recipe, one declaration and the same bytes. */
  lemma {:induction false} PublicationsAgree(d: Deployment, es: seq<Event>, i: nat, j: nat, x: nat, y: nat, r: Request)
    requires i <= |es| && j <= |es| && Publishes(At(d, es, i), x, r) && Publishes(At(d, es, j), y, r)
    ensures At(d, es, i).execs[x].phase == At(d, es, j).execs[y].phase
  {
    hide At, Next, Sealed, BoundTo, RequestsOk, SnapshotsOk, JobsOk, RowsDeclared, PublicationSafety.Inv;
    RunKeepsInv(d, es, i);
    RunKeepsInv(d, es, j);
    var a, b := At(d, es, i).execs[x].phase, At(d, es, j).execs[y].phase;
    assert ExecOk(d, At(d, es, i), At(d, es, i).execs[x]);
    assert ExecOk(d, At(d, es, j), At(d, es, j).execs[y]);
    var last := if i <= j then j else i;
    RunGrows(d, es, i, last);
    RunGrows(d, es, j, last);
    GrowthKeepsBinding(At(d, es, i), At(d, es, last), r, a.p, a.output.result);
    GrowthKeepsBinding(At(d, es, j), At(d, es, last), r, b.p, b.output.result);
    BindingFixesOutput(At(d, es, last), r, a.p, a.output, b.p, b.output);
  }

  lemma GrowthKeepsBinding(before: State, after: State, r: Request, p: Recipe, result: ResultDoc)
    requires Grows(before, after) && BoundTo(before, r, p, result)
    ensures BoundTo(after, r, p, result)
  {
  }

  /** What a request is bound to determines the output down to its bytes. */
  lemma BindingFixesOutput(s: State, r: Request, p: Recipe, a: Output, q: Recipe, b: Output)
    requires BoundTo(s, r, p, a.result) && BoundTo(s, r, q, b.result) && Sealed(p, a) && Sealed(q, b)
    ensures p == q && a == b
  {
    hide ResultAllowed;
  }

  /** What a request is bound to is for this request and this deployment: a supported recipe
      of its source and of the deployed dialect, type and limit, and a snapshot of that
      recipe's processing and invocation whose result truly declares the bytes kept. */
  lemma {:induction false} BoundFitsRequest(d: Deployment, es: seq<Event>, i: nat, r: Request)
    requires i <= |es| && IsBound(At(d, es, i), r)
    ensures var s := At(d, es, i);
            var row := s.requests[RequestId(r)];
            var p, id := row.processing.value.recipe, row.snapshot.value;
            && row == RequestRow(r, Some(ProcessingHash(p)), Some(id)) && ProcessingHash(p) in s.recipes && id in s.snapshots
            && p.supported && p.source == r.source && p.dialect == d.generator.dialect
            && p.mediaType == d.mediaType && p.maxByteLength == d.maxByteLength
            && id.processing == ProcessingHash(p) && id.invocation == p.document.invocation.identity
            && var bytes := s.snapshots[id];
               && 1 <= |bytes| <= d.maxByteLength
               && id.result == ResultDoc(true, d.mediaType, |bytes|, Sha256(bytes), id.result.report)
  {
    hide At, IsPrepared, RequestsOk, ExecsOk, JobsOk, RowsDeclared, PublicationSafety.Inv;
    RunKeepsInv(d, es, i);
    var s := At(d, es, i);
    assert RowOk(d, s, RequestId(r)) by { assert Inv(d, s); RowIsOk(d, s, RequestId(r)); }
    assert SnapshotOk(s.requests[RequestId(r)].snapshot.value, s.snapshots[s.requests[RequestId(r)].snapshot.value]);
  }

  lemma RowIsOk(d: Deployment, s: State, id: RequestId)
    requires RequestsOk(d, s) && id in s.requests
    ensures RowOk(d, s, id)
  {
    hide RowOk;
  }

  // ---- Guaranteed repair

  /** The output a bound request retains. */
  function Retained(s: State, r: Request): Output
    requires IsBound(s, r) && s.requests[RequestId(r)].snapshot.value in s.snapshots
  {
    var id := s.requests[RequestId(r)].snapshot.value;
    Output(id.processing, id.invocation, id.result, s.snapshots[id])
  }

  /** The artifact row of `r`, if there is one, is unsuperseded and was produced by
      the job of this very request. */
  predicate OwnsArtifact(sets: Table, h: ArtifactHash, r: Request) {
    h in sets ==> !sets[h].status.Superseded? && sets[h].presentation.producingJobKey == Some(WorkKey(r))
  }

  lemma KeyIsFree(s: State, p: Recipe, t: Target)
    requires PP.RowsOk(s.pub.sets) && ArtifactOf(p, t) !in s.pub.sets
    ensures !KeyTaken(s.pub.sets, KeyOf(p, t))
  {
    forall k | k in s.pub.sets ensures s.pub.sets[k].file.objectKey != KeyOf(p, t) {
      assert PP.RowOk(k, s.pub.sets[k]);
    }
  }

  /** Whoever staged it, a row at this identity was declared by a request bound to the
      recipe, so only the presentation and supersession can be in the way. */
  lemma OwnRowIsPublishable(d: Deployment, s: State, r: Request, p: Recipe)
    requires Inv(d, s) && IsBound(s, r) && s.requests[RequestId(r)].processing.value == ProcessingHash(p)
    requires s.requests[RequestId(r)].snapshot.value in s.snapshots
    requires PreparedFor(d, r, p) && ArtifactOf(p, TargetOf(d, r)) in s.pub.sets
    ensures var t, h, sets := TargetOf(d, r), ArtifactOf(p, TargetOf(d, r)), s.pub.sets;
            && (Load(sets, p, t.outputKind, t.format).Ok? <==> !sets[h].status.Superseded?)
            && (sets[h].presentation == t.presentation <==> sets[h].presentation.producingJobKey == Some(WorkKey(r)))
            && (sets[h].presentation == t.presentation ==> sets[h].file == FileOf(p, t, Retained(s, r).result))
  {
    hide ExecsOk, JobsOk, PublicationSafety.WorkersOk, PublicationSafety.SentOk, PP.OneReady, PP.PointersOk, PP.Acyclic, ResultAllowed, SafeSegment, FileAllowed, IsPrepared, SnapshotsOk, RequestsOk;
    var t, sets := TargetOf(d, r), s.pub.sets;
    var h := ArtifactOf(p, t);
    assert PP.RowOk(h, sets[h]);
    var r2 :| RowFor(d, s, r2, h, sets[h]);
  }

  lemma OwnedIsPublishable(d: Deployment, s: State, r: Request, p: Recipe)
    requires Inv(d, s) && IsBound(s, r) && s.requests[RequestId(r)].processing.value == ProcessingHash(p)
    ensures s.requests[RequestId(r)].snapshot.value in s.snapshots
    ensures var t, h := TargetOf(d, r), ArtifactOf(p, TargetOf(d, r));
            && ValidDeployment(p, t) == (SafeSegment(r.modelSlug) && SafeSegment(t.logicalPath))
            && (Publishable(s.pub.sets, p, t, Retained(s, r)) <==> ValidDeployment(p, t) && OwnsArtifact(s.pub.sets, h, r))
  {
    hide ExecsOk, JobsOk, RowsDeclared, PublicationSafety.Inv, SafeSegment, Load, Sealed, FileOf, IsPrepared, KeyTaken;
    RetainedIsSealed(d, s, r, p);
    var t, sets := TargetOf(d, r), s.pub.sets;
    var h := ArtifactOf(p, t);
    if h in sets {
      OwnRowIsPublishable(d, s, r, p);
    } else {
      RowsAreOk(d, s);
      KeyIsFree(s, p, t);
    }
  }

  lemma RowsAreOk(d: Deployment, s: State)
    requires Inv(d, s)
    ensures PP.RowsOk(s.pub.sets)
  {
  }

  lemma RetainedIsSealed(d: Deployment, s: State, r: Request, p: Recipe)
    requires RequestsOk(d, s) && SnapshotsOk(s) && IsBound(s, r)
    requires s.requests[RequestId(r)].processing.value == ProcessingHash(p)
    ensures s.requests[RequestId(r)].snapshot.value in s.snapshots
    ensures PreparedFor(d, r, p) && Sealed(p, Retained(s, r))
  {
    hide PreparedFor, ResultAllowed;
    assert RowOk(d, s, RequestId(r));
    var id := s.requests[RequestId(r)].snapshot.value;
    assert SnapshotOk(id, s.snapshots[id]);
  }

  /** Whatever storage holds, recovering a bound request from its own recipe succeeds if
      and only if its names are publishable and its artifact row is absent or is its own
      and unsuperseded. */
  lemma OwnRowsRecover(d: Deployment, es: seq<Event>, i: nat, r: Request, p: Recipe, objects: Store, first: Clock, second: Clock)
    requires i <= |es| && IsBound(At(d, es, i), r)
    requires At(d, es, i).requests[RequestId(r)].processing.value == ProcessingHash(p)
    ensures var s, t := At(d, es, i), TargetOf(d, r);
            && s.requests[RequestId(r)].snapshot.value in s.snapshots
            && var retained, h := Retained(s, r), ArtifactOf(p, t);
               var (after, stored, ok) := Recover(s.pub.sets, objects, p, t, Some(retained), first, second);
               && (ok <==> SafeSegment(r.modelSlug) && SafeSegment(t.logicalPath) && OwnsArtifact(s.pub.sets, h, r))
               && (ok ==>
                     && PublishedAs(after, stored, h, FileOf(p, t, retained.result))
                     && stored[KeyOf(p, t)] == Object(d.mediaType, retained.bytes)
                     && (h in s.pub.sets ==> after[h].file == s.pub.sets[h].file && after[h].presentation == s.pub.sets[h].presentation))
  {
    RunKeepsInv(d, es, i);
    var s, t := At(d, es, i), TargetOf(d, r);
    OwnedIsPublishable(d, s, r, p);
    RetainedIsSealed(d, s, r, p);
    var retained := Retained(s, r);
    RecoverExact(s.pub.sets, objects, p, t, Some(retained), first, second);
    hide At, Recover, Inv, SafeSegment, Load, Publishable, IsPrepared;
    if Confirmable(s.pub.sets, objects, p, t) {
      ConfirmableIsOwned(d, es, i, r, p, objects);
    }
  }

  lemma ConfirmableIsOwned(d: Deployment, es: seq<Event>, i: nat, r: Request, p: Recipe, objects: Store)
    requires i <= |es| && Confirmable(At(d, es, i).pub.sets, objects, p, TargetOf(d, r))
    ensures OwnsArtifact(At(d, es, i).pub.sets, ArtifactOf(p, TargetOf(d, r)), r)
  {
    hide At;
  }
}
