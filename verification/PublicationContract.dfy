/** What publication and reconciliation accept and leave behind, in terms of recipes,
    outputs, rows and objects alone. */
module PublicationContract {
  import opened Core
  import opened Artifacts
  import opened Publication
  import opened Recovery
  import PercentCoding
  import Utf8

  // ---- Names

  /** A name that a URL shows as it is. */
  predicate ShownAsIs(name: string) {
    PercentCoding.Segment(name) == name
  }

  predicate Unreserved(c: char) {
    c as int < 0x80 && PercentCoding.Unreserved(c as int)
  }

  lemma {:induction false} UnreservedIsShown(name: string)
    requires forall i :: 0 <= i < |name| ==> Unreserved(name[i])
    ensures ShownAsIs(name)
  {
    if name != [] {
      UnreservedIsShown(name[1..]);
      var bytes := Utf8.Encode(name);
      assert bytes == [name[0] as int] + Utf8.Encode(name[1..]);
      assert bytes[1..] == Utf8.Encode(name[1..]);
      assert [name[0]] + name[1..] == name;
    }
  }

  lemma {:induction false} EscapesLengthen(bytes: seq<byte>)
    ensures |PercentCoding.EscapeBytes(bytes)| >= |bytes|
    ensures |PercentCoding.EscapeBytes(bytes)| == |bytes| ==> '%' !in PercentCoding.EscapeBytes(bytes)
  {
    if bytes != [] { EscapesLengthen(bytes[1..]); }
  }

  lemma {:induction false} EncodingLengthens(name: string)
    ensures |Utf8.Encode(name)| >= |name|
  {
    if name != [] { EncodingLengthens(name[1..]); }
  }

  lemma ShownIsUnreserved(name: string)
    requires ShownAsIs(name)
    ensures forall c :: c in name ==> Unreserved(c)
  {
    EncodingLengthens(name);
    EscapesLengthen(Utf8.Encode(name));
    PercentCoding.SegmentCharacters(Utf8.Encode(name));
  }

  /** The names target validation admits are those of at most 255 characters that the
      public URL shows unescaped, but for the two dot names and the tilde. */
  lemma SafeSegmentsAreShown(name: string)
    ensures SafeSegment(name) <==> 1 <= |name| <= 255 && name !in [".", ".."] && '~' !in name && ShownAsIs(name)
  {
    assert forall i :: 0 <= i < |name| ==> name[i] in name;
    if SafeSegment(name) { UnreservedIsShown(name); }
    if ShownAsIs(name) { ShownIsUnreserved(name); }
  }

  // ---- Publication

  /** A recipe and a target that publication serves. */
  ghost predicate Serves(p: Recipe, t: Target) {
    && p.supported && t.presentation.schemaVersion >= 1
    && t == Target("slicer_project:" + p.dialect, "project_3mf", t.logicalPath, t.presentation)
    && (forall name :: name in [t.logicalPath, t.presentation.modelSlug] ==>
          1 <= |name| <= 255 && name !in [".", ".."] && '~' !in name && ShownAsIs(name))
  }

  /** A result that declares these bytes, of the recipe's type and within its limit. */
  predicate Declares(p: Recipe, result: ResultDoc, bytes: seq<byte>) {
    1 <= |bytes| <= p.maxByteLength
    && result == ResultDoc(true, p.mediaType, |bytes|, Sha256(bytes), result.report)
  }

  ghost function Identity(p: Recipe, t: Target): ArtifactHash {
    ArtifactHash("slicer_project:" + p.dialect, "project_3mf", p.source, p.config,
                 OptionsHash("project_3mf", p.dialect, p.options), ProcessingHash(p))
  }

  /** The row that declares a result for a target. */
  ghost function RowFor(p: Recipe, t: Target, result: ResultDoc, status: Status, updatedAt: int): Row {
    var h := Identity(p, t);
    var key := ObjectKey(h, t.logicalPath);
    Row(p.source, p.config, h.options, h.outputKind, "project_3mf", Some(h.processing), Some(h.processing), status, key, t.presentation,
        FileRow("generated_project", t.logicalPath, None, key, p.mediaType, result.byteLength, result.sha, result),
        updatedAt, None, None, None)
  }

  lemma ServedTargets(p: Recipe, t: Target)
    ensures ValidDeployment(p, t) <==> Serves(p, t)
  {
    hide SafeSegment, ShownAsIs;
    SafeSegmentsAreShown(t.logicalPath);
    SafeSegmentsAreShown(t.presentation.modelSlug);
    assert [t.logicalPath, t.presentation.modelSlug][0] == t.logicalPath;
    assert [t.logicalPath, t.presentation.modelSlug][1] == t.presentation.modelSlug;
  }

  lemma SealedOutputs(p: Recipe, output: Output)
    ensures Sealed(p, output)
            <==> output.processing == ProcessingHash(p) && output.invocation == p.document.invocation.identity
                 && Declares(p, output.result, output.bytes) && |output.bytes| < 0x8000_0000_0000_0000
  {
  }

  lemma PublishableRows(sets: Table, p: Recipe, t: Target, output: Output)
    requires ValidDeployment(p, t) && Sealed(p, output)
    ensures var h := Identity(p, t);
            Publishable(sets, p, t, output)
            <==> if h in sets then !sets[h].status.Superseded? && sets[h] == RowFor(p, t, output.result, sets[h].status, sets[h].updatedAt)
                 else forall k :: k in sets ==> sets[k].file.objectKey != ObjectKey(h, t.logicalPath)
  {
    hide SafeSegment;
    SafeSegmentsAreLogicalPaths(t.logicalPath);
    hide ValidLogicalPath;
  }

  /** Publication without faults succeeds exactly for a served target and an output of this
      processing and invocation that its result truly declares, where no row stands for the
      artifact and no other one uses its key, or where the row is this declaration's, not
      superseded, and if ready its object is in storage as declared. */
  lemma {:induction false} PublishOnFields(sets: Table, objects: Store, p: Recipe, t: Target, output: Output, clock: Clock)
    ensures var h := Identity(p, t);
            var key := ObjectKey(h, t.logicalPath);
            Publish(sets, objects, p, t, output, NO_FAULTS, clock).2.Ok?
            <==> && Serves(p, t)
                 && output.processing == ProcessingHash(p) && output.invocation == p.document.invocation.identity
                 && Declares(p, output.result, output.bytes) && |output.bytes| < 0x8000_0000_0000_0000
                 && if h in sets
                    then && !sets[h].status.Superseded? && sets[h] == RowFor(p, t, output.result, sets[h].status, sets[h].updatedAt)
                         && (sets[h].status.Ready? ==> key in objects && objects[key] == Object(p.mediaType, output.bytes))
                    else forall k :: k in sets ==> sets[k].file.objectKey != key
  {
    hide Publish, SafeSegment, Serves, Declares, Publishable, Sealed, ValidDeployment;
    PublishExact(sets, objects, p, t, output, NO_FAULTS, clock);
    ServedTargets(p, t);
    SealedOutputs(p, output);
    PublishableNeeds(sets, p, t, output);
    if ValidDeployment(p, t) && Sealed(p, output) {
      PublishableRows(sets, p, t, output);
      ArtifactIsIdentity(p, t);
      SealedBytes(p, t, output, objects);
    }
  }

  lemma PublishableNeeds(sets: Table, p: Recipe, t: Target, output: Output)
    ensures Publishable(sets, p, t, output) ==> ValidDeployment(p, t) && Sealed(p, output)
  {
  }

  lemma ArtifactIsIdentity(p: Recipe, t: Target)
    requires ValidDeployment(p, t)
    ensures ArtifactOf(p, t) == Identity(p, t) && KeyOf(p, t) == ObjectKey(Identity(p, t), t.logicalPath)
  {
    hide SafeSegment;
  }

  lemma SealedBytes(p: Recipe, t: Target, output: Output, objects: Store)
    requires ValidDeployment(p, t) && Sealed(p, output)
    ensures var key := ObjectKey(Identity(p, t), t.logicalPath);
            forall row: Row :: row.file == RowFor(p, t, output.result, Ready, 0).file ==>
              (StoredExactly(objects, row.file) <==> key in objects && objects[key] == Object(p.mediaType, output.bytes))
  {
    hide SafeSegment;
  }

  /** And then, whatever faults there were, the row declares this very output and is ready,
      under the artifact's key lies the object with the declared type and these bytes, and
      the key is what is returned. */
  lemma {:induction false} PublishedOnFields(sets: Table, objects: Store, p: Recipe, t: Target, output: Output, faults: Faults, clock: Clock)
    ensures var h := Identity(p, t);
            var key := ObjectKey(h, t.logicalPath);
            var (after, stored, r) := Publish(sets, objects, p, t, output, faults, clock);
            r.Ok? ==>
              && r.value == key && key in stored && stored[key] == Object(p.mediaType, output.bytes)
              && h in after && after[h] == RowFor(p, t, output.result, Ready, after[h].updatedAt)
  {
    hide Publish, Publishable;
    PublishExact(sets, objects, p, t, output, faults, clock);
    var (after, stored, r) := Publish(sets, objects, p, t, output, faults, clock);
    if r.Ok? {
      PublishableNeeds(sets, p, t, output);
      ArtifactIsIdentity(p, t);
      PublishKeepsIdentity(sets, objects, p, t, output, faults, clock);
    }
  }

  lemma PublishKeepsIdentity(sets: Table, objects: Store, p: Recipe, t: Target, output: Output, faults: Faults, clock: Clock)
    ensures var (after, stored, r) := Publish(sets, objects, p, t, output, faults, clock);
            r.Ok? ==> Load(after, p, t.outputKind, t.format).Ok? && ArtifactOf(p, t) in after
  {
    hide StoredExactly, ValidDeployment, Sealed;
    var file := FileOf(p, t, output.result);
    var staged := StageOrResume(sets, p, StageRequestOf(p, t, output.result), [file], clock.stage).0;
    CompleteExact(staged, p, t.outputKind, t.format, KeyOf(p, t), clock.complete);
    hide StageOrResume, Complete, RecordFailure, Fail;
  }

  ghost function StagedFor(sets: Table, p: Recipe, t: Target, output: Output, now: int): (Table, Result<Row, Conflict>) {
    StageOrResume(sets, p, StageRequestOf(p, t, output.result), [FileOf(p, t, output.result)], now)
  }

  lemma StagesPublishable(sets: Table, p: Recipe, t: Target, output: Output, now: int)
    requires Publishable(sets, p, t, output)
    ensures var h := ArtifactOf(p, t);
            var (staged, resumed) := StagedFor(sets, p, t, output, now);
            && resumed.Ok? && h in staged && staged[h] == resumed.value && Live(staged[h]) && staged[h].processing.Some?
            && (staged[h].status.Ready? <==> h in sets && sets[h].status.Ready?)
            && (h in sets ==> staged == sets) && staged[h].file == FileOf(p, t, output.result)
            && Load(staged, p, t.outputKind, t.format).Ok?
  {
    StagingAdmitsPublishable(sets, p, t, output, now);
    LoadedIsLive(StagedFor(sets, p, t, output, now).0, p, t);
    hide StageOrResume, ValidDeployment, Sealed, Load, FileOf, KeyTaken;
  }

  lemma CompletesStaged(sets: Table, p: Recipe, t: Target, now: int)
    requires var h := ArtifactOf(p, t);
             h in sets && Load(sets, p, t.outputKind, t.format).Ok? && sets[h].file.objectKey == KeyOf(p, t)
    ensures var (after, r) := Complete(sets, p, t.outputKind, t.format, KeyOf(p, t), now);
            var h := ArtifactOf(p, t);
            r == Ok(true) && h in after && after[h].status.Ready? && after[h].file == sets[h].file
  {
    CompleteExact(sets, p, t.outputKind, t.format, KeyOf(p, t), now);
    hide Complete, Load;
  }

  /** Which fault is reported, and what it leaves: an upload is attempted only for a row that
      is not ready, and stored unless the request is lost; a failed upload or check demotes
      the row, a failed clean-up demotes it unless it was ready; a failed retention comes
      before everything. */
  lemma {:induction false} FaultsAreReported(sets: Table, objects: Store, p: Recipe, t: Target, output: Output, faults: Faults, clock: Clock)
    requires Publishable(sets, p, t, output)
    ensures var h, key := ArtifactOf(p, t), KeyOf(p, t);
            var ready := h in sets && sets[h].status.Ready?;
            var (after, stored, r) := Publish(sets, objects, p, t, output, faults, clock);
            if faults.retain then (after, stored, r) == (sets, objects, Err(Rejected))
            else
              && (r == Err(UploadFailure) <==> !ready && !faults.put.NoFault?)
              && (r == Err(VerificationFailure) <==> (ready || faults.put.NoFault?) && (faults.get || DamagedReady(sets, objects, h)))
              && (r == Err(CleanupFailure) <==>
                    (ready || faults.put.NoFault?) && !faults.get && !DamagedReady(sets, objects, h) && faults.cleanup)
              && (r.Err? ==> r.error.UploadFailure? || r.error.VerificationFailure? || r.error.CleanupFailure?)
              && stored == (if ready || faults.put.LostRequest? then objects else objects[key := Object(p.mediaType, output.bytes)])
              && h in after && after[h].file == FileOf(p, t, output.result)
              && after[h].status == (if r.Ok? || (ready && r == Err(CleanupFailure)) then Status.Ready else UploadFailed)
  {
    var staged := StagedFor(sets, p, t, output, clock.stage).0;
    PublishableNeeds(sets, p, t, output);
    StagesPublishable(sets, p, t, output, clock.stage);
    CompletesStaged(staged, p, t, clock.complete);
    SealedUpload(p, t, output);
    hide StageOrResume, Load, Complete, ValidDeployment, Sealed, Publishable, Exact, ArtifactOf, Advance;
  }

  lemma LoadedIsLive(sets: Table, p: Recipe, t: Target)
    ensures var h := ArtifactOf(p, t);
            h in sets && Load(sets, p, t.outputKind, t.format).Ok? ==> Live(sets[h]) && sets[h].processing.Some?
  {
  }

  lemma SealedUpload(p: Recipe, t: Target, output: Output)
    requires Sealed(p, output)
    ensures Exact(Object(p.mediaType, output.bytes), FileOf(p, t, output.result))
  {
  }

  // ---- Reconciliation

  /** Reconciliation without a fault confirms exactly a served target whose row declares,
      in every column, a result the recipe allows, is not superseded, and whose object is in
      storage as declared; it reports absence exactly if there is no row. */
  lemma {:induction false} ReconcileOnFields(sets: Table, objects: Store, p: Recipe, t: Target, clock: Clock)
    ensures var h := Identity(p, t);
            var key := ObjectKey(h, t.logicalPath);
            var (after, r) := Reconcile(sets, objects, p, t, false, clock);
            && (r == Ok(Some(key)) <==> r.Ok? && r.value.Some?)
            && (r.Ok? && r.value.Some? <==>
                  && Serves(p, t) && h in sets && !sets[h].status.Superseded?
                  && sets[h] == RowFor(p, t, sets[h].file.metadata, sets[h].status, sets[h].updatedAt)
                  && key in objects && objects[key].contentType == p.mediaType
                  && Declares(p, sets[h].file.metadata, objects[key].bytes))
            && (r == Ok(None) <==> Serves(p, t) && h !in sets)
            && (r.Ok? && r.value.Some? ==> h in after && after[h] == RowFor(p, t, sets[h].file.metadata, Ready, after[h].updatedAt))
  {
    hide Serves, ShownAsIs;
    ServedTargets(p, t);
    if ValidDeployment(p, t) {
      ArtifactIsIdentity(p, t);
      SafeSegmentsAreLogicalPaths(t.logicalPath);
      CompleteExact(sets, p, t.outputKind, t.format, KeyOf(p, t), clock.complete);
      hide SafeSegment, ValidLogicalPath, Complete, RecordFailure, Reconcile;
      ConfirmedRows(sets, objects, p, t);
      ReconcileConfirms(sets, objects, p, t, clock);
    } else {
      hide Complete, RecordFailure, SafeSegment, Load, DeclarationMatches, StoredExactly;
    }
  }

  lemma ConfirmedRows(sets: Table, objects: Store, p: Recipe, t: Target)
    requires ValidDeployment(p, t)
    ensures var h := Identity(p, t);
            var key := ObjectKey(h, t.logicalPath);
            Confirmable(sets, objects, p, t)
            <==> && h in sets && !sets[h].status.Superseded?
                 && sets[h] == RowFor(p, t, sets[h].file.metadata, sets[h].status, sets[h].updatedAt)
                 && key in objects && objects[key].contentType == p.mediaType
                 && Declares(p, sets[h].file.metadata, objects[key].bytes)
  {
    SafeSegmentsAreLogicalPaths(t.logicalPath);
    hide SafeSegment, ValidLogicalPath;
  }

  lemma ReconcileConfirms(sets: Table, objects: Store, p: Recipe, t: Target, clock: Clock)
    requires ValidDeployment(p, t)
    ensures var h := ArtifactOf(p, t);
            var (after, r) := Reconcile(sets, objects, p, t, false, clock);
            && (r.Ok? && r.value.Some? <==> Confirmable(sets, objects, p, t))
            && (r == Ok(None) <==> h !in sets)
            && (r.Ok? && r.value.Some? ==> r.value.value == KeyOf(p, t) && h in after && after[h] == sets[h].(status := Ready, updatedAt := after[h].updatedAt))
  {
    hide ValidDeployment, StoredExactly, RecordFailure;
    CompleteExact(sets, p, t.outputKind, t.format, KeyOf(p, t), clock.complete);
    hide Complete;
  }
}
