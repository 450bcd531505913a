/** How bambu_project.rs brings a bound request back to readiness: reconcile the
    existing record, and only if that fails publish again from the retained
    snapshot. Acquisition and the generator are never involved. */
module Recovery {
  import opened Core
  import opened Artifacts
  import opened Publication

  /** The recovery branch of `execute_inner`, as a function of tables and storage.
      `snapshot` is what reopening the retained output yields, if anything. */
  function Recover(sets: Table, objects: Store, p: Recipe, t: Target, snapshot: Option<Output>, first: Clock, second: Clock)
    : (Table, Store, bool)
  {
    var (reconciled, r) := Reconcile(sets, objects, p, t, false, first);
    if r.Ok? && r.value.Some? then (reconciled, objects, true)
    else if snapshot.None? then (reconciled, objects, false)
    else
      var (published, stored, q) := Publish(reconciled, objects, p, t, snapshot.value, NO_FAULTS, second);
      (published, stored, q.Ok?)
  }

  method RecoverBoundRequest(db: Database, store: ObjectStore, p: Recipe, t: Target, snapshot: Option<Output>,
                             first: Clock, second: Clock)
    returns (ok: bool)
    modifies db, store
    ensures (db.sets, store.objects, ok) == Recover(old(db.sets), old(store.objects), p, t, snapshot, first, second)
  {
    var reconciled := ReconcileGeneratorArtifact(db, store, p, t, false, first);
    if reconciled.Ok? && reconciled.value.Some? {
      return true;
    }
    if snapshot.None? {
      return false;
    }
    var published := PublishGeneratorOutput(db, store, p, t, snapshot.value, NO_FAULTS, second);
    return published.Ok?;
  }

  /** An existing record recovery can confirm without the snapshot. */
  predicate Confirmable(sets: Table, objects: Store, p: Recipe, t: Target) {
    && ValidDeployment(p, t) && ArtifactOf(p, t) in sets
    && Load(sets, p, t.outputKind, t.format).Ok?
    && DeclarationMatches(p, t, sets[ArtifactOf(p, t)])
    && StoredExactly(objects, sets[ArtifactOf(p, t)].file)
  }

  // ---- One publication

  lemma CompletionPublishes(sets: Table, objects: Store, p: Recipe, t: Target, now: int)
    requires var h := ArtifactOf(p, t);
             && h in sets && Load(sets, p, t.outputKind, t.format).Ok?
             && sets[h].file.objectKey == KeyOf(p, t) && StoredExactly(objects, sets[h].file)
    ensures var (after, r) := Complete(sets, p, t.outputKind, t.format, KeyOf(p, t), now);
            && r == Ok(true) && PublishedAs(after, objects, ArtifactOf(p, t), sets[ArtifactOf(p, t)].file)
            && after[ArtifactOf(p, t)].presentation == sets[ArtifactOf(p, t)].presentation
  {
    CompleteExact(sets, p, t.outputKind, t.format, KeyOf(p, t), now);
  }

  lemma StagingAdmitsPublishable(sets: Table, p: Recipe, t: Target, output: Output, now: int)
    requires ValidDeployment(p, t) && Sealed(p, output)
    ensures var (after, r) := StageOrResume(sets, p, StageRequestOf(p, t, output.result), [FileOf(p, t, output.result)], now);
            && (r.Ok? <==> Publishable(sets, p, t, output))
            && (r.Err? ==> after == sets)
            && (r.Ok? ==>
                  var h := ArtifactOf(p, t);
                  && h in after && after[h] == r.value && Load(after, p, t.outputKind, t.format) == Ok(Some(r.value))
                  && r.value.file == FileOf(p, t, output.result) && r.value.presentation == t.presentation
                  && (h in sets ==> after == sets) && (h !in sets ==> r.value.status.Staged?))
  {
    SafeSegmentsAreLogicalPaths(t.logicalPath);
    StageExact(sets, p, StageRequestOf(p, t, output.result), [FileOf(p, t, output.result)], now);
  }

  /** The stored object of an already ready row has been damaged. */
  predicate DamagedReady(sets: Table, objects: Store, h: ArtifactHash) {
    h in sets && sets[h].status.Ready? && !StoredExactly(objects, sets[h].file)
  }

  /** Without faults, publication succeeds exactly on publishable artifacts whose
      ready object, if any, is undamaged; with any faults, success means the
      artifact is ready under this declaration and storage holds these bytes. */
  lemma PublishExact(sets: Table, objects: Store, p: Recipe, t: Target, output: Output, faults: Faults, clock: Clock)
    ensures var (after, stored, r) := Publish(sets, objects, p, t, output, faults, clock);
            && (r.Ok? ==> Publishable(sets, p, t, output) && PublishedAs(after, stored, ArtifactOf(p, t), FileOf(p, t, output.result))
                          && r.value == KeyOf(p, t) && stored[r.value] == Object(p.mediaType, output.bytes)
                          && after[ArtifactOf(p, t)].presentation == t.presentation)
            && (faults == NO_FAULTS ==>
                  (r.Ok? <==> Publishable(sets, p, t, output) && !DamagedReady(sets, objects, ArtifactOf(p, t))))
            && (!Publishable(sets, p, t, output) ==> after == sets && stored == objects)
            && forall k :: k != KeyOf(p, t) ==> (k in stored <==> k in objects) && (k in objects ==> stored[k] == objects[k])
  {
    if ValidDeployment(p, t) && Sealed(p, output) {
      var file := FileOf(p, t, output.result);
      var (staged, resumed) := StageOrResume(sets, p, StageRequestOf(p, t, output.result), [file], clock.stage);
      StagingAdmitsPublishable(sets, p, t, output, clock.stage);
      if resumed.Ok? {
        hide StageOrResume, Load, Complete, RecordFailure, Fail;
        var stored := Uploaded(objects, resumed.value, KeyOf(p, t), Object(p.mediaType, output.bytes), faults.put);
        if Verified(stored, resumed.value, file, faults) && !faults.cleanup {
          CompletionPublishes(staged, stored, p, t, clock.complete);
        }
      }
    }
  }

  /** A publication that stages a new row and succeeds supersedes every ready rival. */
  lemma PublishRetiresRivals(sets: Table, objects: Store, p: Recipe, t: Target, output: Output, faults: Faults, clock: Clock, k: ArtifactHash)
    requires ArtifactOf(p, t) !in sets && k in sets && sets[k].status.Ready?
    requires var h := ArtifactOf(p, t);
             sets[k].source == h.source && sets[k].config == h.config && sets[k].options == h.options && sets[k].outputKind == h.outputKind
    ensures var (after, stored, r) := Publish(sets, objects, p, t, output, faults, clock);
            r.Ok? ==> k in after && after[k].status.Superseded? && after[k].supersededBy == Some(ArtifactOf(p, t))
  {
    hide SafeSegment, ResultAllowed, StoredExactly, FileAllowed;
    var file := FileOf(p, t, output.result);
    var (staged, resumed) := StageOrResume(sets, p, StageRequestOf(p, t, output.result), [file], clock.stage);
    StageExact(sets, p, StageRequestOf(p, t, output.result), [file], clock.stage);
    CompleteExact(staged, p, t.outputKind, t.format, KeyOf(p, t), clock.complete);
    hide RecordFailure, Fail, Complete, StageOrResume, Load, Sealed, KeyTaken, Verified, Uploaded;
  }

  // ---- Recovery

  /** A failed check leaves an intact record pending, with its declaration. */
  lemma FailedReconciliation(sets: Table, objects: Store, p: Recipe, t: Target, clock: Clock)
    requires var h := ArtifactOf(p, t);
             && ValidDeployment(p, t) && h in sets && Load(sets, p, t.outputKind, t.format).Ok?
             && DeclarationMatches(p, t, sets[h]) && !StoredExactly(objects, sets[h].file)
    ensures var (after, r) := Reconcile(sets, objects, p, t, false, clock);
            var h := ArtifactOf(p, t);
            && r == Err(VerificationFailure) && h in after && Pending(after[h])
            && after[h].file == sets[h].file && after[h].presentation == sets[h].presentation
            && Load(after, p, t.outputKind, t.format).Ok?
  {
  }

  lemma PublishableMatches(sets: Table, p: Recipe, t: Target, output: Output)
    requires Publishable(sets, p, t, output) && ArtifactOf(p, t) in sets
    ensures DeclarationMatches(p, t, sets[ArtifactOf(p, t)])
  {
  }

  /** Recovery succeeds exactly when the record can be confirmed as stored or the
      snapshot is publishable. What storage holds is irrelevant to the latter:
      missing, damaged or foreign bytes are all repaired, from a staged, failed or
      ready record alike. */
  lemma {:induction false} RecoverExact(sets: Table, objects: Store, p: Recipe, t: Target, snapshot: Option<Output>, first: Clock, second: Clock)
    ensures var (after, stored, ok) := Recover(sets, objects, p, t, snapshot, first, second);
            && (ok <==> Confirmable(sets, objects, p, t) || (snapshot.Some? && Publishable(sets, p, t, snapshot.value)))
            && (ok ==>
                  var h := ArtifactOf(p, t);
                  var file := if h in sets then sets[h].file else FileOf(p, t, snapshot.value.result);
                  && PublishedAs(after, stored, h, file)
                  && (h in sets ==> after[h].presentation == sets[h].presentation))
            && forall k :: k != KeyOf(p, t) ==> (k in stored <==> k in objects) && (k in objects ==> stored[k] == objects[k])
  {
    var h := ArtifactOf(p, t);
    var (reconciled, r) := Reconcile(sets, objects, p, t, false, first);
    if Confirmable(sets, objects, p, t) {
      CompletionPublishes(sets, objects, p, t, first.complete);
    } else {
      ReconcileFails(sets, objects, p, t, first);
      if snapshot.Some? {
        RetryPublishes(sets, objects, p, t, snapshot.value, first, second);
      }
    }
  }

  lemma ReconcileFails(sets: Table, objects: Store, p: Recipe, t: Target, clock: Clock)
    requires !Confirmable(sets, objects, p, t)
    ensures var (after, r) := Reconcile(sets, objects, p, t, false, clock);
            && !(r.Ok? && r.value.Some?)
            && (r != Err(VerificationFailure) ==> after == sets)
            && (r == Err(VerificationFailure) ==>
                  ArtifactOf(p, t) in sets && Load(sets, p, t.outputKind, t.format).Ok? && ValidDeployment(p, t)
                  && DeclarationMatches(p, t, sets[ArtifactOf(p, t)]) && !StoredExactly(objects, sets[ArtifactOf(p, t)].file))
  {
  }

  lemma {:induction false} RetryPublishes(sets: Table, objects: Store, p: Recipe, t: Target, output: Output, first: Clock, second: Clock)
    requires !Confirmable(sets, objects, p, t)
    ensures var (after, stored, ok) := Recover(sets, objects, p, t, Some(output), first, second);
            && (ok <==> Publishable(sets, p, t, output))
            && (ok ==> PublishedAs(after, stored, ArtifactOf(p, t), FileOf(p, t, output.result)))
            && (ok ==> after[ArtifactOf(p, t)].presentation == t.presentation)
            && forall k :: k != KeyOf(p, t) ==> (k in stored <==> k in objects) && (k in objects ==> stored[k] == objects[k])
  {
    hide Publish;
    var h := ArtifactOf(p, t);
    var (reconciled, r) := Reconcile(sets, objects, p, t, false, first);
    ReconcileFails(sets, objects, p, t, first);
    PublishExact(reconciled, objects, p, t, output, NO_FAULTS, second);
    if r == Err(VerificationFailure) {
      FailedReconciliation(sets, objects, p, t, first);
    } else if Publishable(sets, p, t, output) && h in sets {
      PublishableMatches(sets, p, t, output);
    }
  }
}
