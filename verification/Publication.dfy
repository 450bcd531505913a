/** generator_publication.rs as one worker runs it: publish accepted bytes, or
    reconcile an existing record, against the artifact tables and object storage.
    Interleavings of many workers are the subject of PublicationProtocol. */
module Publication {
  import opened Core
  import opened Artifacts
  import Measured
  import Documents

  datatype Object = Object(contentType: string, bytes: seq<byte>)

  type Store = map<ObjectKey, Object>

  datatype Target = Target(outputKind: string, format: string, logicalPath: string, presentation: Presentation)

  /** Output sealed by the runner or by a checkpoint: declaration and bytes. */
  datatype Output = Output(processing: ProcessingHash, invocation: Documents.Call, result: ResultDoc, bytes: seq<byte>)

  predicate SafeSegment(value: string) {
    && 0 < |value| <= 255 && value != "." && value != ".."
    && forall i :: 0 <= i < |value| ==>
         var c := value[i];
         'a' <= c <= 'z' || 'A' <= c <= 'Z' || '0' <= c <= '9' || c == '-' || c == '_' || c == '.'
  }

  /** `validate_deployment`, as far as the recipe itself decides it. */
  predicate ValidDeployment(p: Recipe, t: Target) {
    && t.outputKind == "slicer_project:" + p.dialect
    && t.format == "project_3mf"
    && SafeSegment(t.logicalPath)
    && SafeSegment(t.presentation.modelSlug)
    && t.presentation.schemaVersion > 0
    && p.supported
  }

  function ArtifactOf(p: Recipe, t: Target): ArtifactHash {
    HashOf(p, t.outputKind, t.format)
  }

  function KeyOf(p: Recipe, t: Target): ObjectKey {
    ObjectKey(ArtifactOf(p, t), t.logicalPath)
  }

  /** `GeneratorResult::validate_against_request` for a successful result. */
  predicate ResultAllowed(p: Recipe, result: ResultDoc) {
    result.success && result.mediaType == p.mediaType && 0 < result.byteLength <= p.maxByteLength
  }

  /** The declaration is for this recipe, allowed by it, and true of the bytes. */
  predicate Sealed(p: Recipe, output: Output) {
    && output.processing == ProcessingHash(p)
    && output.invocation == InvocationOf(p)
    && ResultAllowed(p, output.result)
    && output.result.byteLength == |output.bytes| < I64_LIMIT
    && output.result.sha == Sha256(output.bytes)
  }

  function FileOf(p: Recipe, t: Target, result: ResultDoc): FileRow {
    FileRow(GENERATED_PROJECT, t.logicalPath, None, KeyOf(p, t), p.mediaType, result.byteLength, result.sha, result)
  }

  function StageRequestOf(p: Recipe, t: Target, result: ResultDoc): StageRequest {
    StageRequest(t.outputKind, t.format, t.presentation, KeyOf(p, t), p.mediaType, result.byteLength, result.sha)
  }

  predicate Exact(stored: Object, file: FileRow) {
    stored.contentType == file.contentType && |stored.bytes| == file.byteLen && Sha256(stored.bytes) == file.sha
  }

  predicate StoredExactly(objects: Store, file: FileRow) {
    file.objectKey in objects && Exact(objects[file.objectKey], file)
  }

  /** Reconciliation's comparison of a stored row with what publication declares. */
  predicate DeclarationMatches(p: Recipe, t: Target, row: Row) {
    && row.presentation == t.presentation
    && ResultAllowed(p, row.file.metadata)
    && row.file.role == GENERATED_PROJECT
    && row.file.logicalPath == t.logicalPath
    && row.file.originalPath.None?
    && row.file.objectKey == KeyOf(p, t)
    && row.file.contentType == p.mediaType
    && row.file.byteLen == row.file.metadata.byteLength
    && row.file.sha == row.file.metadata.sha
  }

  lemma SafeSegmentsAreLogicalPaths(value: string)
    requires SafeSegment(value)
    ensures ValidLogicalPath(value)
  {
  }

  // ---- Storage

  /** A write may fail before or after the service applied it. */
  datatype PutFault = NoFault | LostRequest | LostReply

  class ObjectStore {
    var objects: Store

    constructor ()
      ensures objects == map[]
    {
      objects := map[];
    }

    method PutFile(key: ObjectKey, body: Object, fault: PutFault) returns (ok: bool)
      modifies this
      ensures ok <==> fault.NoFault?
      ensures objects == if fault.LostRequest? then old(objects) else old(objects)[key := body]
    {
      if !fault.LostRequest? {
        objects := objects[key := body];
      }
      return fault.NoFault?;
    }

    /** The body arrives in chunks of the service's choosing. */
    method GetBody(key: ObjectKey) returns (chunks: seq<seq<byte>>)
      requires key in objects
      ensures Flatten(chunks) == objects[key].bytes
    {
      chunks := [objects[key].bytes];
      assert chunks[1..] == [];
    }

    /** `verify_exact_object`: metadata of the HEAD and GET responses, then the
        streamed body. Without a fault it accepts exactly the declared object. */
    method VerifyExactObject(key: ObjectKey, contentType: string, length: u64, sha: Sha256, fault: bool)
      returns (ok: bool)
      ensures ok <==> !fault && key in objects && objects[key].contentType == contentType
                      && |objects[key].bytes| == length && Sha256(objects[key].bytes) == sha
    {
      if fault || key !in objects {
        return false;
      }
      var head := objects[key];
      if !Measured.MetadataMatches(Some(|head.bytes|), Some(head.contentType), contentType, length) {
        return false;
      }
      var chunks := GetBody(key);
      ok := Measured.VerifyObjectBody(chunks, length, sha);
    }
  }

  // ---- One worker

  datatype Failure = Rejected | UploadFailure | VerificationFailure | CleanupFailure | StagingConflict | SupersededFirst

  datatype Faults = Faults(retain: bool, put: PutFault, get: bool, cleanup: bool)

  const NO_FAULTS := Faults(false, NoFault, false, false)

  /** The clock readings of one call; nothing relates them. */
  datatype Clock = Clock(stage: int, fail: int, complete: int)

  /** Publication of `output` can reach readiness from this table: no row yet, or
      an unsuperseded row that already carries this very declaration. */
  predicate Publishable(sets: Table, p: Recipe, t: Target, output: Output) {
    && ValidDeployment(p, t)
    && Sealed(p, output)
    && var h := ArtifactOf(p, t);
       if h in sets
       then Load(sets, p, t.outputKind, t.format).Ok? && sets[h].presentation == t.presentation
            && sets[h].file == FileOf(p, t, output.result)
       else !KeyTaken(sets, KeyOf(p, t))
  }

  /** The row is ready with its declaration intact, and storage holds exactly the
      declared object. */
  predicate PublishedAs(sets: Table, objects: Store, h: ArtifactHash, file: FileRow) {
    && h in sets && sets[h].status.Ready? && Unmarked(sets[h]) && sets[h].file == file
    && StoredExactly(objects, file)
  }

  function RecordFailure(sets: Table, h: ArtifactHash, readyRevision: Option<int>, now: int): Table {
    if readyRevision.Some? then FailReady(sets, h, readyRevision.value, now).0 else Fail(sets, h, now).0
  }

  function RevisionOf(row: Row): Option<int> {
    if row.status.Ready? then Some(row.updatedAt) else None
  }

  function Uploaded(objects: Store, row: Row, key: ObjectKey, body: Object, fault: PutFault): Store {
    if row.status.Ready? || fault.LostRequest? then objects else objects[key := body]
  }

  predicate Verified(objects: Store, row: Row, file: FileRow, faults: Faults) {
    (row.status.Ready? || faults.put.NoFault?) && !faults.get && StoredExactly(objects, file)
  }

  /** Tables, storage and result after one publication. */
  function Publish(sets: Table, objects: Store, p: Recipe, t: Target, output: Output, faults: Faults, clock: Clock)
    : (Table, Store, Result<ObjectKey, Failure>)
  {
    if !ValidDeployment(p, t) || !Sealed(p, output) || faults.retain then (sets, objects, Err(Rejected))
    else
      var key, file, h := KeyOf(p, t), FileOf(p, t, output.result), ArtifactOf(p, t);
      var (staged, resumed) := StageOrResume(sets, p, StageRequestOf(p, t, output.result), [file], clock.stage);
      if resumed.Err? then (sets, objects, Err(StagingConflict))
      else
        var row := resumed.value;
        var stored := Uploaded(objects, row, key, Object(p.mediaType, output.bytes), faults.put);
        if !Verified(stored, row, file, faults) then
          (RecordFailure(staged, h, RevisionOf(row), clock.fail), stored,
           Err(if row.status.Ready? || faults.put.NoFault? then VerificationFailure else UploadFailure))
        else if faults.cleanup then (Fail(staged, h, clock.fail).0, stored, Err(CleanupFailure))
        else
          var (completed, ok) := Complete(staged, p, t.outputKind, t.format, key, clock.complete);
          (completed, stored, if ok == Ok(true) then Ok(key) else Err(SupersededFirst))
  }

  /** Tables and result after one reconciliation, which never writes storage. */
  function Reconcile(sets: Table, objects: Store, p: Recipe, t: Target, fault: bool, clock: Clock)
    : (Table, Result<Option<ObjectKey>, Failure>)
  {
    if !ValidDeployment(p, t) then (sets, Err(Rejected))
    else
      match Load(sets, p, t.outputKind, t.format)
      case Err(_) => (sets, Err(StagingConflict))
      case Ok(None) => (sets, Ok(None))
      case Ok(Some(row)) =>
        if !DeclarationMatches(p, t, row) then (sets, Err(Rejected))
        else if fault || !StoredExactly(objects, row.file) then
          (RecordFailure(sets, ArtifactOf(p, t), RevisionOf(row), clock.fail), Err(VerificationFailure))
        else
          var (completed, ok) := Complete(sets, p, t.outputKind, t.format, KeyOf(p, t), clock.complete);
          (completed, if ok == Ok(true) then Ok(Some(KeyOf(p, t))) else Err(SupersededFirst))
  }

  method RecordVerificationFailure(db: Database, h: ArtifactHash, readyRevision: Option<int>, now: int)
    modifies db
    ensures db.sets == RecordFailure(old(db.sets), h, readyRevision, now)
  {
    if readyRevision.Some? {
      var _ := db.FailReadyGeneratorVerification(h, readyRevision.value, now);
    } else {
      var _ := db.FailGeneratorArtifact(h, now);
    }
  }

  /** Recording a failure demotes row `h` exactly if it is still what the worker saw: ready
      at that very revision, or pending as it was; a row that has become ready since, or
      that is ready at another revision, is left alone. */
  lemma RecordExact(sets: Table, h: ArtifactHash, seen: Row, now: int)
    requires h in sets && sets[h].processing.Some?
    ensures var after := RecordFailure(sets, h, RevisionOf(seen), now);
            && (after == sets || Demoted(sets, after, h))
            && (after != sets <==> Unmarked(sets[h]) && if seen.status.Ready? then sets[h].status.Ready? && sets[h].updatedAt == seen.updatedAt
                                                        else Pending(sets[h]))
  {
  }

  /** `retain_candidate`: the accepted bytes are copied and measured again. The
      retention file may fail. */
  method RetainCandidate(p: Recipe, output: Output, fault: bool) returns (r: Option<seq<byte>>)
    ensures r.Some? <==> Sealed(p, output) && !fault
    ensures r.Some? ==> r.value == output.bytes
  {
    if output.processing != ProcessingHash(p) || output.invocation != InvocationOf(p) || !ResultAllowed(p, output.result) || output.result.byteLength >= I64_LIMIT {
      return None;
    }
    if fault {
      return None;
    }
    assert Flatten([output.bytes]) == output.bytes;
    r := Measured.MeasureCopy([output.bytes], [], output.result.byteLength, output.result.sha);
  }

  method PublishGeneratorOutput(db: Database, store: ObjectStore, p: Recipe, t: Target, output: Output,
                                faults: Faults, clock: Clock)
    returns (r: Result<ObjectKey, Failure>)
    modifies db, store
    ensures (db.sets, store.objects, r) == Publish(old(db.sets), old(store.objects), p, t, output, faults, clock)
  {
    if !ValidDeployment(p, t) {
      return Err(Rejected);
    }
    var retained := RetainCandidate(p, output, faults.retain);
    if retained.None? {
      return Err(Rejected);
    }
    var key, file, h := KeyOf(p, t), FileOf(p, t, output.result), ArtifactOf(p, t);
    var staged := db.StageOrResumeGeneratorArtifact(p, StageRequestOf(p, t, output.result), [file], clock.stage);
    if staged.Err? {
      StageConflictRollsBack(old(db.sets), p, StageRequestOf(p, t, output.result), [file], clock.stage);
      return Err(StagingConflict);
    }
    var uploaded, verified := true, false;
    if !staged.value.status.Ready? {
      uploaded := store.PutFile(key, Object(p.mediaType, retained.value), faults.put);
    }
    if uploaded {
      verified := store.VerifyExactObject(key, p.mediaType, output.result.byteLength, output.result.sha, faults.get);
    }
    if !verified {
      RecordVerificationFailure(db, h, RevisionOf(staged.value), clock.fail);
      return Err(if uploaded then VerificationFailure else UploadFailure);
    }
    if faults.cleanup {
      var _ := db.FailGeneratorArtifact(h, clock.fail);
      return Err(CleanupFailure);
    }
    var completed := db.CompleteGeneratorArtifact(p, t.outputKind, t.format, key, clock.complete);
    return if completed == Ok(true) then Ok(key) else Err(SupersededFirst);
  }

  method ReconcileGeneratorArtifact(db: Database, store: ObjectStore, p: Recipe, t: Target, fault: bool, clock: Clock)
    returns (r: Result<Option<ObjectKey>, Failure>)
    modifies db
    ensures (db.sets, r) == Reconcile(old(db.sets), store.objects, p, t, fault, clock)
  {
    if !ValidDeployment(p, t) {
      return Err(Rejected);
    }
    var loaded := Load(db.sets, p, t.outputKind, t.format);
    if loaded.Err? {
      return Err(StagingConflict);
    }
    if loaded.value.None? {
      return Ok(None);
    }
    var row := loaded.value.value;
    if !DeclarationMatches(p, t, row) {
      return Err(Rejected);
    }
    var verified := store.VerifyExactObject(KeyOf(p, t), row.file.contentType, row.file.metadata.byteLength, row.file.sha, fault);
    if !verified {
      RecordVerificationFailure(db, ArtifactOf(p, t), RevisionOf(row), clock.fail);
      return Err(VerificationFailure);
    }
    var completed := db.CompleteGeneratorArtifact(p, t.outputKind, t.format, KeyOf(p, t), clock.complete);
    return if completed == Ok(true) then Ok(Some(KeyOf(p, t))) else Err(SupersededFirst);
  }
}
