/** Guaranteed repair of bound requests: exactly when one fault-free recovery succeeds,
    and a run in which one execution and its workers carry it out. */
module ProjectRecovery {
  import opened Core
  import opened Artifacts
  import opened Publication
  import opened Recovery
  import opened ProjectProtocol
  import opened ProjectSafety
  import opened ProjectOrigins
  import PP = PublicationProtocol
  import PR = PublicationRuns
  import PublicationSafety

  // ---- The condition

  predicate Unsuperseded(sets: Table, h: ArtifactHash) {
    h in sets ==> !sets[h].status.Superseded?
  }

  /** With fresh translation ids the artifact row of a bound request, if there is one,
      was declared by the request itself. */
  lemma {:induction false} RowIsOwn(d: Deployment, es: seq<Event>, i: nat, r: Request, p: Recipe)
    requires i <= |es| && FreshTranslations(d, es) && IsBound(At(d, es, i), r)
    requires At(d, es, i).requests[RequestId(r)].processing.value == ProcessingHash(p)
    ensures var sets, h := At(d, es, i).pub.sets, ArtifactOf(p, TargetOf(d, r));
            OwnsArtifact(sets, h, r) <==> Unsuperseded(sets, h)
  {
    hide At, FreshTranslations, PublicationSafety.Inv, RequestsOk, SnapshotsOk, ExecsOk, JobsOk;
    RunKeepsInv(d, es, i);
    var s, h := At(d, es, i), ArtifactOf(p, TargetOf(d, r));
    if h in s.pub.sets {
      var other :| RowFor(d, s, other, h, s.pub.sets[h]);
      RecipeFixesRequest(d, es, i, r, other);
    }
  }

  /** The recovery branch from the stored row on: reopen the recipe, reconcile, and
      publish the retained output if that fails. */
  ghost function RecoverRequest(d: Deployment, s: State, r: Request, objects: Store, first: Clock, second: Clock)
    : (Table, Store, bool)
    requires IsBound(s, r) && s.requests[RequestId(r)].snapshot.value in s.snapshots
  {
    var hash := s.requests[RequestId(r)].processing.value;
    if hash !in s.recipes || StoredRecipe(d, hash).None? then (s.pub.sets, objects, false)
    else Recover(s.pub.sets, objects, StoredRecipe(d, hash).value, TargetOf(d, r), Some(Retained(s, r)), first, second)
  }

  /** From every reachable state, whatever storage holds by then, one fault-free recovery
      of a bound request ends with its artifact ready under an unchanged declaration and
      the exact retained bytes stored, if and only if its stored recipe is readable, its
      names are publishable and its artifact row is absent or unsuperseded. */
  lemma {:induction false} RecoveryIsExact(d: Deployment, es: seq<Event>, i: nat, r: Request, p: Recipe, objects: Store,
                                           first: Clock, second: Clock)
    requires i <= |es| && FreshTranslations(d, es) && IsBound(At(d, es, i), r)
    requires At(d, es, i).requests[RequestId(r)].processing.value == ProcessingHash(p)
    ensures var s, t := At(d, es, i), TargetOf(d, r);
            && s.requests[RequestId(r)].snapshot.value in s.snapshots
            && var retained, h := Retained(s, r), ArtifactOf(p, t);
               var (after, stored, ok) := RecoverRequest(d, s, r, objects, first, second);
               && (ok <==> Readable(d, p.document) && SafeSegment(r.modelSlug) && SafeSegment(t.logicalPath)
                           && Unsuperseded(s.pub.sets, h))
               && (ok ==>
                     && PublishedAs(after, stored, h, FileOf(p, t, retained.result))
                     && stored[KeyOf(p, t)] == Object(d.mediaType, retained.bytes)
                     && (h in s.pub.sets ==> after[h].file == s.pub.sets[h].file && after[h].presentation == s.pub.sets[h].presentation))
  {
    hide At, FreshTranslations, Recover, SafeSegment, OwnsArtifact, Readable, StoredRecipe, PreparedFor, PublishedAs, KeyOf, ArtifactOf;
    RunKeepsInv(d, es, i);
    var s := At(d, es, i);
    assert RowOk(d, s, RequestId(r));
    StoredRecipeExact(d, r, p);
    OwnRowsRecover(d, es, i, r, p, objects, first, second);
    RowIsOwn(d, es, i, r, p);
  }

  /** In particular, if acquisition accepts only documents that read back, every bound
      request with publishable names recovers unless its artifact has been superseded. */
  lemma {:induction false} UnsupersededRequestsRecover(d: Deployment, es: seq<Event>, i: nat, r: Request, objects: Store,
                                                       first: Clock, second: Clock)
    requires i <= |es| && FreshTranslations(d, es) && AcquiresReadable(d, es) && IsBound(At(d, es, i), r)
    requires SafeSegment(r.modelSlug) && SafeSegment(TargetOf(d, r).logicalPath)
    ensures var s := At(d, es, i);
            && s.requests[RequestId(r)].snapshot.value in s.snapshots
            && (RecoverRequest(d, s, r, objects, first, second).2
                <==> Unsuperseded(s.pub.sets, ArtifactOf(s.requests[RequestId(r)].processing.value.recipe, TargetOf(d, r))))
  {
    hide At, FreshTranslations, AcquiresReadable, RecoverRequest, Readable, SafeSegment;
    BoundIsReadable(d, es, i, r);
    RecoveryIsExact(d, es, i, r, At(d, es, i).requests[RequestId(r)].processing.value.recipe, objects, first, second);
  }

  // ---- A run that recovers

  ghost function Run(d: Deployment, s: State, es: seq<Event>): State
    decreases |es|
  {
    if es == [] then s else Run(d, Next(d, s, es[0]), es[1..])
  }

  lemma {:induction false} RunAppend(d: Deployment, s: State, es: seq<Event>, more: seq<Event>)
    ensures Run(d, s, es + more) == Run(d, Run(d, s, es), more)
    decreases |es|
  {
    hide Next;
    if es == [] {
      assert es + more == more;
    } else {
      assert (es + more)[0] == es[0] && (es + more)[1..] == es[1..] + more;
      RunAppend(d, Next(d, s, es[0]), es[1..], more);
    }
  }

  lemma RunOne(d: Deployment, s: State, e: Event, more: seq<Event>)
    ensures Run(d, s, [e] + more) == Run(d, Next(d, s, e), more)
  {
    hide Next;
    assert ([e] + more)[1..] == more;
  }

  lemma {:induction false} PrefixRuns(d: Deployment, es: seq<Event>, more: seq<Event>, i: nat)
    requires i <= |es|
    ensures At(d, es + more, i) == At(d, es, i)
  {
    hide Next;
    if i > 0 {
      assert (es + more)[i - 1] == es[i - 1];
      PrefixRuns(d, es, more, i - 1);
    }
  }

  /** Running on from the end of a run is running the longer list of events. */
  lemma {:induction false} RunContinues(d: Deployment, es: seq<Event>, more: seq<Event>)
    ensures At(d, es + more, |es| + |more|) == Run(d, At(d, es, |es|), more)
    decreases |more|
  {
    hide Next;
    if more == [] {
      assert es + more == es;
    } else {
      var longer := es + [more[0]];
      assert longer + more[1..] == es + more;
      RunContinues(d, longer, more[1..]);
      PrefixRuns(d, es, [more[0]], |es|);
    }
  }

  function Lift(es: seq<PP.Event>): seq<Event>
    ensures |Lift(es)| == |es|
  {
    seq(|es|, i requires 0 <= i < |es| => Publication(es[i]))
  }

  predicate NoSpawn(es: seq<PP.Event>) {
    forall e :: e in es ==> !e.Spawn?
  }

  lemma {:induction false} LiftedRun(d: Deployment, s: State, es: seq<PP.Event>)
    requires NoSpawn(es)
    ensures Run(d, s, Lift(es)) == s.(pub := PR.Run(s.pub, es))
    decreases |es|
  {
    hide PP.Next;
    if es != [] {
      assert Lift(es)[0] == Publication(es[0]);
      assert Lift(es)[1..] == Lift(es[1..]);
      LiftedRun(d, Next(d, s, Lift(es)[0]), es[1..]);
    }
  }

  lemma AloneSpawnsNothing(s: PP.State, w: nat, clock: Clock)
    ensures NoSpawn(PR.Alone(s, w, NO_FAULTS, clock))
  {
    hide PP.Next;
  }

  /** What execution `x` does, with worker `w` to reconcile and worker `v` to publish. */
  ghost function Begins(x: nat, r: Request, w: nat): seq<Event> {
    [Start(x, r)] + ([Act(x, ReadRow)] + ([Act(x, StartReconciliation(w))] + []))
  }

  ghost function Resumes(x: nat, v: nat): seq<Event> {
    [Act(x, Reopen)] + ([Act(x, StartPublication(v))] + [])
  }

  ghost function Recovers(d: Deployment, s: State, r: Request, x: nat, w: nat, v: nat, first: Clock, second: Clock): seq<Event> {
    var s1 := Run(d, s, Begins(x, r, w));
    var reconciling := Lift(PR.Alone(s1.pub, w, NO_FAULTS, first));
    var s2 := Run(d, s1, reconciling);
    var s3 := Run(d, s2, Resumes(x, v));
    Begins(x, r, w) + (reconciling + (Resumes(x, v) + Lift(PR.Alone(s3.pub, v, NO_FAULTS, second))))
  }

  predicate Succeeded(s: PP.State, w: nat) {
    w in s.workers && s.workers[w].phase == PP.Finished(true)
  }

  lemma RunsInParts(d: Deployment, s: State, r: Request, x: nat, w: nat, v: nat, first: Clock, second: Clock)
    ensures var s1 := Run(d, s, Begins(x, r, w));
            var s2 := s1.(pub := PR.Run(s1.pub, PR.Alone(s1.pub, w, NO_FAULTS, first)));
            var s3 := Run(d, s2, Resumes(x, v));
            Run(d, s, Recovers(d, s, r, x, w, v, first, second))
            == s3.(pub := PR.Run(s3.pub, PR.Alone(s3.pub, v, NO_FAULTS, second)))
  {
    hide Run, Begins, Resumes, PR.Alone, PR.Run, Lift;
    var s1 := Run(d, s, Begins(x, r, w));
    var reconciling := Lift(PR.Alone(s1.pub, w, NO_FAULTS, first));
    var s2 := Run(d, s1, reconciling);
    AloneSpawnsNothing(s1.pub, w, first);
    LiftedRun(d, s1, PR.Alone(s1.pub, w, NO_FAULTS, first));
    var s3 := Run(d, s2, Resumes(x, v));
    var publishing := Lift(PR.Alone(s3.pub, v, NO_FAULTS, second));
    AloneSpawnsNothing(s3.pub, v, second);
    LiftedRun(d, s3, PR.Alone(s3.pub, v, NO_FAULTS, second));
    RunAppend(d, s, Begins(x, r, w), reconciling + (Resumes(x, v) + publishing));
    RunAppend(d, s1, reconciling, Resumes(x, v) + publishing);
    RunAppend(d, s2, Resumes(x, v), publishing);
  }

  lemma RunsBegins(d: Deployment, s: State, x: nat, r: Request, w: nat)
    ensures Run(d, s, Begins(x, r, w))
            == Next(d, Next(d, Next(d, s, Start(x, r)), Act(x, ReadRow)), Act(x, StartReconciliation(w)))
  {
    hide Next;
    var s1 := Next(d, s, Start(x, r));
    var s2 := Next(d, s1, Act(x, ReadRow));
    RunOne(d, s, Start(x, r), [Act(x, ReadRow)] + ([Act(x, StartReconciliation(w))] + []));
    RunOne(d, s1, Act(x, ReadRow), [Act(x, StartReconciliation(w))] + []);
    RunOne(d, s2, Act(x, StartReconciliation(w)), []);
  }

  lemma RunsResumes(d: Deployment, s: State, x: nat, v: nat)
    ensures Run(d, s, Resumes(x, v)) == Next(d, Next(d, s, Act(x, Reopen)), Act(x, StartPublication(v)))
  {
    hide Next;
    RunOne(d, s, Act(x, Reopen), [Act(x, StartPublication(v))] + []);
    RunOne(d, Next(d, s, Act(x, Reopen)), Act(x, StartPublication(v)), []);
  }

  /** The tables are those of `s`, execution `x` is in this phase, and worker `w`, if
      named, has just been spawned for this job. */
  predicate Stands(s: State, after: State, x: nat, r: Request, phase: Phase) {
    && after.requests == s.requests && after.recipes == s.recipes && after.snapshots == s.snapshots
    && x in after.execs && after.execs[x] == Execution(r, phase)
  }

  lemma BeginsUnread(d: Deployment, s: State, x: nat, r: Request, w: nat)
    requires AfterRead(d, s, r).Ended?
    ensures var after := Run(d, s, Begins(x, r, w)); Stands(s, after, x, r, Ended) && after.pub == s.pub
  {
    hide AfterRead, PreparedFor, PP.Next, TargetOf;
    RunsBegins(d, s, x, r, w);
    ReadsAlike(d, s, Next(d, s, Start(x, r)), r);
  }

  lemma ReadsAlike(d: Deployment, s: State, after: State, r: Request)
    requires after.requests == s.requests && after.recipes == s.recipes
    ensures AfterRead(d, after, r) == AfterRead(d, s, r)
  {
  }

  lemma BeginsReconciling(d: Deployment, s: State, x: nat, r: Request, w: nat, p: Recipe, snapshot: SnapshotId)
    requires AfterRead(d, s, r) == Recovering(p, Some(snapshot)) && PreparedFor(d, r, p) && w !in s.pub.workers
    ensures var after := Run(d, s, Begins(x, r, w));
            && Stands(s, after, x, r, Reconciling(p, Some(snapshot), w))
            && after.pub == s.pub.(workers := s.pub.workers[w := PP.Worker(PP.ReconcileJob(p, TargetOf(d, r)), PP.Begin, None)])
  {
    hide AfterRead, PreparedFor, TargetOf;
    RunsBegins(d, s, x, r, w);
    ReadsAlike(d, s, Next(d, s, Start(x, r)), r);
  }

  /** A worker number nobody uses does nothing. */
  lemma AbsentDoesNothing(s: PP.State, w: nat, clock: Clock)
    requires w !in s.workers
    ensures PR.Run(s, PR.Alone(s, w, NO_FAULTS, clock)) == s
  {
    hide PR.Checks;
    assert PP.Next(s, PP.Enter(w, clock.stage)) == s;
    assert PR.Uploads(s, w, NO_FAULTS.put) == [];
    assert [] + PR.Checks(w, NO_FAULTS, clock) == PR.Checks(w, NO_FAULTS, clock);
    PR.RunOne(s, PP.Enter(w, clock.stage), [] + PR.Checks(w, NO_FAULTS, clock));
    PR.EndedStays(s, w, NO_FAULTS, clock);
  }

  lemma ResumesNothing(d: Deployment, s: State, x: nat, v: nat)
    requires x in s.execs && (s.execs[x].phase.Ended? || (s.execs[x].phase.Reconciling? && !Failed(s, s.execs[x].phase.w)))
    ensures Run(d, s, Resumes(x, v)) == s
  {
    RunsResumes(d, s, x, v);
  }

  lemma ResumesPublishing(d: Deployment, s: State, x: nat, r: Request, v: nat, p: Recipe, snapshot: SnapshotId, w: nat)
    requires x in s.execs && s.execs[x] == Execution(r, Reconciling(p, Some(snapshot), w)) && Failed(s, w)
    requires snapshot in s.snapshots && v !in s.pub.workers
    ensures var output := Output(snapshot.processing, snapshot.invocation, snapshot.result, s.snapshots[snapshot]);
            Run(d, s, Resumes(x, v)).pub
            == s.pub.(workers := s.pub.workers[v := PP.Worker(PP.PublishJob(p, TargetOf(d, r), output), PP.Begin, None)])
  {
    hide TargetOf;
    RunsResumes(d, s, x, v);
  }

  /** A single execution and its workers, undisturbed, have the effect of the recovery
      function; one of the workers ends well exactly if it succeeds. */
  lemma {:induction false} RunRecovers(d: Deployment, s: State, r: Request, x: nat, w: nat, v: nat, first: Clock, second: Clock)
    requires Inv(d, s) && IsBound(s, r) && w != v && w !in s.pub.workers && v !in s.pub.workers
    ensures s.requests[RequestId(r)].snapshot.value in s.snapshots
    ensures var (sets, objects, ok) := RecoverRequest(d, s, r, s.pub.objects, first, second);
            var after := Run(d, s, Recovers(d, s, r, x, w, v, first, second));
            && after.pub.sets == sets && after.pub.objects == objects
            && (ok <==> Succeeded(after.pub, w) || Succeeded(after.pub, v))
  {
    hide Run, Recovers, Begins, Resumes, PR.Run, PR.Alone, PP.Next, StoredRecipe, Readable, Recover, PreparedFor, TargetOf;
    RunsInParts(d, s, r, x, w, v, first, second);
    assert RowOk(d, s, RequestId(r));
    var row := s.requests[RequestId(r)];
    var p, snapshot := row.processing.value.recipe, row.snapshot.value;
    StoredRecipeExact(d, r, p);
    var s1 := Run(d, s, Begins(x, r, w));
    if StoredRecipe(d, row.processing.value).None? {
      BeginsUnread(d, s, x, r, w);
      AbsentDoesNothing(s1.pub, w, first);
      ResumesNothing(d, s1, x, v);
      AbsentDoesNothing(s1.pub, v, second);
    } else {
      BeginsReconciling(d, s, x, r, w, p, snapshot);
      ReconcilingRuns(d, s, s1, r, x, w, v, p, snapshot, first, second);
    }
  }

  lemma {:induction false} ReconcilingRuns(d: Deployment, s: State, s1: State, r: Request, x: nat, w: nat, v: nat, p: Recipe,
                                           snapshot: SnapshotId, first: Clock, second: Clock)
    requires w != v && w !in s.pub.workers && v !in s.pub.workers && snapshot in s.snapshots
    requires Stands(s, s1, x, r, Reconciling(p, Some(snapshot), w))
    requires s1.pub == s.pub.(workers := s.pub.workers[w := PP.Worker(PP.ReconcileJob(p, TargetOf(d, r)), PP.Begin, None)])
    ensures var output := Output(snapshot.processing, snapshot.invocation, snapshot.result, s.snapshots[snapshot]);
            var (sets, objects, ok) := Recover(s.pub.sets, s.pub.objects, p, TargetOf(d, r), Some(output), first, second);
            var s2 := s1.(pub := PR.Run(s1.pub, PR.Alone(s1.pub, w, NO_FAULTS, first)));
            var s3 := Run(d, s2, Resumes(x, v));
            var after := s3.(pub := PR.Run(s3.pub, PR.Alone(s3.pub, v, NO_FAULTS, second)));
            && after.pub.sets == sets && after.pub.objects == objects
            && (ok <==> Succeeded(after.pub, w) || Succeeded(after.pub, v))
  {
    hide Run, Resumes, PR.Run, PR.Alone, PP.Next, TargetOf, Reconcile, Publish;
    var t := TargetOf(d, r);
    PR.ReconcilesAlone(s1.pub, w, p, t, NO_FAULTS, first);
    var s2 := s1.(pub := PR.Run(s1.pub, PR.Alone(s1.pub, w, NO_FAULTS, first)));
    var (reconciled, outcome) := Reconcile(s.pub.sets, s.pub.objects, p, t, false, first);
    if outcome.Ok? && outcome.value.Some? {
      ResumesNothing(d, s2, x, v);
      AbsentDoesNothing(s2.pub, v, second);
    } else {
      ResumesPublishing(d, s2, x, r, v, p, snapshot, w);
      var s3 := Run(d, s2, Resumes(x, v));
      var output := Output(snapshot.processing, snapshot.invocation, snapshot.result, s.snapshots[snapshot]);
      PR.PublishesAlone(s3.pub, v, p, t, output, NO_FAULTS, second);
    }
  }

  /** What the run ends with, in full. */
  lemma {:induction false} RunRecoversExactly(d: Deployment, es: seq<Event>, r: Request, p: Recipe, x: nat, w: nat, v: nat,
                                              first: Clock, second: Clock)
    requires FreshTranslations(d, es) && IsBound(At(d, es, |es|), r)
    requires At(d, es, |es|).requests[RequestId(r)].processing.value == ProcessingHash(p)
    requires w != v && w !in At(d, es, |es|).pub.workers && v !in At(d, es, |es|).pub.workers
    ensures var s, t := At(d, es, |es|), TargetOf(d, r);
            var after, h := Run(d, s, Recovers(d, s, r, x, w, v, first, second)).pub, ArtifactOf(p, t);
            && s.requests[RequestId(r)].snapshot.value in s.snapshots
            && var ok := Succeeded(after, w) || Succeeded(after, v);
               && (ok <==> Readable(d, p.document) && SafeSegment(r.modelSlug) && SafeSegment(t.logicalPath)
                           && Unsuperseded(s.pub.sets, h))
               && (ok ==> Stored(after, d, p, t, Retained(s, r)))
  {
    hide At, Run, Recovers, RecoverRequest, FreshTranslations, Readable, SafeSegment, Inv;
    var s := At(d, es, |es|);
    RunKeepsInv(d, es, |es|);
    RunRecovers(d, s, r, x, w, v, first, second);
    RecoveryIsExact(d, es, |es|, r, p, s.pub.objects, first, second);
  }

  /** The artifact is ready under the declaration of `output`, and stored. */
  predicate Stored(s: PP.State, d: Deployment, p: Recipe, t: Target, output: Output) {
    && PublishedAs(s.sets, s.objects, ArtifactOf(p, t), FileOf(p, t, output.result))
    && KeyOf(p, t) in s.objects && s.objects[KeyOf(p, t)] == Object(d.mediaType, output.bytes)
  }

  predicate Unrivalled(sets: Table, h: ArtifactHash) {
    h in sets && forall k :: k in sets && sets[k].status.Ready? && SameOutput(sets[k], sets[h]) ==> k == h
  }

  lemma StoredIsUnrivalled(d: Deployment, s: State, p: Recipe, t: Target, output: Output)
    requires Inv(d, s) && Stored(s.pub, d, p, t, output)
    ensures Unrivalled(s.pub.sets, ArtifactOf(p, t))
  {
  }

  /** Every run that has bound a request can be continued, by one execution and two
      workers without faults; one of them ends well if and only if the condition holds,
      and then the artifact is ready, alone for its output, with the exact bytes stored. */
  lemma {:induction false} RecoveryIsReachable(d: Deployment, es: seq<Event>, r: Request, p: Recipe, x: nat, w: nat, v: nat,
                                               first: Clock, second: Clock) returns (more: seq<Event>)
    requires FreshTranslations(d, es) && IsBound(At(d, es, |es|), r)
    requires At(d, es, |es|).requests[RequestId(r)].processing.value == ProcessingHash(p)
    requires w != v && w !in At(d, es, |es|).pub.workers && v !in At(d, es, |es|).pub.workers
    ensures var s, t := At(d, es, |es|), TargetOf(d, r);
            var after, h := At(d, es + more, |es| + |more|).pub, ArtifactOf(p, t);
            && s.requests[RequestId(r)].snapshot.value in s.snapshots
            && var ok := Succeeded(after, w) || Succeeded(after, v);
               && (ok <==> Readable(d, p.document) && SafeSegment(r.modelSlug) && SafeSegment(t.logicalPath)
                           && Unsuperseded(s.pub.sets, h))
               && (ok ==> Stored(after, d, p, t, Retained(s, r)) && Unrivalled(after.sets, h))
  {
    hide At, Run, Recovers, FreshTranslations, Readable, SafeSegment, Inv, Stored, Unrivalled, Unsuperseded, Succeeded, ArtifactOf, TargetOf;
    var s, t := At(d, es, |es|), TargetOf(d, r);
    more := Recovers(d, s, r, x, w, v, first, second);
    RunContinues(d, es, more);
    RunRecoversExactly(d, es, r, p, x, w, v, first, second);
    var after := At(d, es + more, |es| + |more|);
    RunKeepsInv(d, es + more, |es| + |more|);
    if Stored(after.pub, d, p, t, Retained(s, r)) { StoredIsUnrivalled(d, after, p, t, Retained(s, r)); }
  }
}
