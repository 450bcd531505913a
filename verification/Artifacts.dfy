/** The generator rows of `artifact_sets` and `artifact_files`, and the
    transactions of db.rs that read and change them. */
module Artifacts {
  import opened Core
  import Documents

  // ---- Identities: every hash is a constructor over what it is computed from.

  /** What `generator_options_hash` reads besides the dialect. */
  datatype Options = Options(capabilities: seq<string>, settings: Documents.SettingsId, schema: string)

  /** A prepared recipe: the parts publication reads, and the document itself. */
  datatype Recipe = Recipe(
    source: string, config: string, dialect: string, options: Options,
    supported: bool, mediaType: string, maxByteLength: u64, document: Documents.Recipe)

  /** The recipe of a document: publication's view of it is computed from it. */
  function RecipeOf(document: Documents.Recipe): Recipe {
    var output := document.invocation.call.output;
    Recipe(document.manifest.subject.source, document.manifest.subject.config, document.compatibility.dialect,
           Options(document.compatibility.capabilities, document.settingsId, document.settingsSchema),
           document.decision.Supported?, output.mediaType, output.maxByteLength, document)
  }

  /** `invocation_identity`, which hashes the invocation the recipe fixes. */
  function InvocationOf(p: Recipe): Documents.Call {
    p.document.invocation.identity
  }

  datatype ProcessingHash = ProcessingHash(recipe: Recipe)

  datatype OptionsHash = OptionsHash(format: string, dialect: string, options: Options)

  datatype ArtifactHash = ArtifactHash(
    outputKind: string, format: string, source: string, config: string,
    options: OptionsHash, processing: ProcessingHash)

  datatype ObjectKey = ObjectKey(artifact: ArtifactHash, logicalPath: string)

  function HashOf(p: Recipe, outputKind: string, format: string): ArtifactHash {
    ArtifactHash(outputKind, format, p.source, p.config, OptionsHash(format, p.dialect, p.options), ProcessingHash(p))
  }

  // ---- Rows

  datatype Status = Staged | UploadFailed | Ready | Superseded

  datatype ResultDoc = ResultDoc(success: bool, mediaType: string, byteLength: u64, sha: Sha256, report: string)

  datatype FileRow = FileRow(
    role: string, logicalPath: string, originalPath: Option<string>, objectKey: ObjectKey,
    contentType: string, byteLen: int, sha: Sha256, metadata: ResultDoc)

  /** A Bambu project request; `policy` stands for the frozen deployment, profile
      and catalog identities and the ordered selectors. */
  datatype Request = Request(modelSlug: string, source: string, config: string, values: string, policy: string)

  /** `bambu-project-v1:` followed by the request identity, a hash of the request. */
  datatype WorkKey = WorkKey(request: Request)

  datatype Presentation = Presentation(
    modelSlug: string, producingJobKey: Option<WorkKey>, schemaVersion: int, configValues: string)

  datatype Row = Row(
    source: string, config: string, options: OptionsHash, outputKind: string, format: string,
    postprocess: Option<ProcessingHash>, processing: Option<ProcessingHash>,
    status: Status, objectKey: ObjectKey, presentation: Presentation, file: FileRow, updatedAt: int,
    supersededAt: Option<int>, supersededBy: Option<ArtifactHash>, reason: Option<string>)

  type Table = map<ArtifactHash, Row>

  datatype Conflict = Conflict

  const GENERATED_PROJECT := "generated_project"
  const REPLACED := "replaced"
  const I64_LIMIT: nat := 0x8000_0000_0000_0000

  predicate Unmarked(row: Row) {
    row.supersededAt.None? && row.supersededBy.None? && row.reason.None?
  }

  predicate Pending(row: Row) {
    row.status.Staged? || row.status.UploadFailed?
  }

  predicate Live(row: Row) {
    (Pending(row) || row.status.Ready?) && Unmarked(row)
  }

  /** Rows competing for one output: source, configuration, options, output kind. */
  predicate SameOutput(a: Row, b: Row) {
    a.source == b.source && a.config == b.config && a.options == b.options && a.outputKind == b.outputKind
  }

  predicate ValidLogicalPath(path: string) {
    path != "" && path != "." && path != ".."
    && forall i :: 0 <= i < |path| ==> path[i] != '/' && path[i] != '\\' && !IsControl(path[i])
  }

  predicate IsControl(c: char) {
    c < ' ' || 0x7f <= c as int <= 0x9f
  }

  /** The stored file evidence a recipe allows. */
  predicate FileAllowed(p: Recipe, file: FileRow) {
    && file.role == GENERATED_PROJECT
    && file.originalPath.None?
    && ValidLogicalPath(file.logicalPath)
    && file.contentType == p.mediaType
    && 0 < file.byteLen <= p.maxByteLength
  }

  // ---- Transactions, as functions of the table

  datatype StageRequest = StageRequest(
    outputKind: string, format: string, presentation: Presentation,
    objectKey: ObjectKey, contentType: string, byteLen: int, sha: Sha256)

  function FreshRow(p: Recipe, a: StageRequest, file: FileRow, now: int): Row {
    var h := HashOf(p, a.outputKind, a.format);
    Row(h.source, h.config, h.options, h.outputKind, h.format, Some(h.processing), Some(h.processing),
        Staged, a.objectKey, a.presentation, file, now, None, None, None)
  }

  /** `load_generator_artifact`: absent, intact, or a conflict. */
  function Load(sets: Table, p: Recipe, outputKind: string, format: string): Result<Option<Row>, Conflict> {
    var h := HashOf(p, outputKind, format);
    if h !in sets then Ok(None)
    else
      var row := sets[h];
      if !p.supported || row.source != h.source || row.config != h.config || row.options != h.options
         || row.outputKind != outputKind || row.format != format
         || row.postprocess != Some(h.processing) || row.processing != Some(h.processing)
         || !Live(row)
      then Err(Conflict)
      else if !FileAllowed(p, row.file) || row.objectKey != row.file.objectKey
      then Err(Conflict)
      else Ok(Some(row))
  }

  predicate KeyTaken(sets: Table, key: ObjectKey) {
    exists k :: k in sets && sets[k].file.objectKey == key
  }

  predicate StageArgumentsAgree(p: Recipe, a: StageRequest, files: seq<FileRow>) {
    && p.supported
    && |files| == 1
    && files[0].objectKey == a.objectKey
    && files[0].contentType == a.contentType
    && files[0].byteLen == a.byteLen
    && files[0].sha == a.sha
    && FileAllowed(p, files[0])
  }

  /** `stage_or_resume_generator_artifact`. A conflict rolls the transaction back. */
  function StageOrResume(sets: Table, p: Recipe, a: StageRequest, files: seq<FileRow>, now: int)
    : (r: (Table, Result<Row, Conflict>))
  {
    var h := HashOf(p, a.outputKind, a.format);
    if !StageArgumentsAgree(p, a, files) then (sets, Err(Conflict))
    else if h !in sets && KeyTaken(sets, files[0].objectKey) then (sets, Err(Conflict))
    else
      var after := if h in sets then sets else sets[h := FreshRow(p, a, files[0], now)];
      match Load(after, p, a.outputKind, a.format)
      case Ok(Some(row)) =>
        if row.objectKey != a.objectKey || row.presentation != a.presentation || row.file != files[0]
        then (sets, Err(Conflict))
        else (after, Ok(row))
      case _ => (sets, Err(Conflict))
  }

  /** Every generator transition moves the timestamp strictly forward, whatever
      the clock says. */
  function Advance(updatedAt: int, now: int): (next: int)
    ensures next > updatedAt && next >= now && (next == now || next == updatedAt + 1)
  {
    if now > updatedAt + 1 then now else updatedAt + 1
  }

  function Fail(sets: Table, h: ArtifactHash, now: int): (Table, bool) {
    if h in sets && sets[h].processing.Some? && Pending(sets[h]) && Unmarked(sets[h])
    then (sets[h := sets[h].(status := UploadFailed, updatedAt := Advance(sets[h].updatedAt, now))], true)
    else (sets, false)
  }

  function FailReady(sets: Table, h: ArtifactHash, expected: int, now: int): (Table, bool) {
    if h in sets && sets[h].processing.Some? && sets[h].status.Ready? && sets[h].updatedAt == expected && Unmarked(sets[h])
    then (sets[h := sets[h].(status := UploadFailed, updatedAt := Advance(sets[h].updatedAt, now))], true)
    else (sets, false)
  }

  function Replaced(row: Row, winner: ArtifactHash, now: int): Row {
    row.(status := Superseded, supersededAt := Some(now), supersededBy := Some(winner), reason := Some(REPLACED), updatedAt := now)
  }

  function MarkReady(sets: Table, h: ArtifactHash, now: int): Table
    requires h in sets
  {
    if Pending(sets[h]) && Unmarked(sets[h])
    then sets[h := sets[h].(status := Ready, updatedAt := Advance(sets[h].updatedAt, now))]
    else sets
  }

  function ReplaceRivals(sets: Table, h: ArtifactHash, record: Row, outputKind: string, now: int): Table {
    map k | k in sets :: if k != h && sets[k].status.Ready? && SameOutput(sets[k], record.(outputKind := outputKind))
                         then Replaced(sets[k], h, now) else sets[k]
  }

  /** `complete_generator_artifact`: a row that is not yet ready becomes ready and
      supersedes every ready rival in the same transaction. */
  function Complete(sets: Table, p: Recipe, outputKind: string, format: string, key: ObjectKey, now: int)
    : (Table, Result<bool, Conflict>)
  {
    var h := HashOf(p, outputKind, format);
    match Load(sets, p, outputKind, format)
    case Err(e) => (sets, Err(e))
    case Ok(None) => (sets, Ok(false))
    case Ok(Some(row)) =>
      if row.file.objectKey != key then (sets, Err(Conflict))
      else if row.status.Ready? then (sets, Ok(true))
      else (ReplaceRivals(MarkReady(sets, h, now), h, row, outputKind, now), Ok(true))
  }

  /** `supersede_artifact_set` as the operator commands call it: no successor. */
  function Withdraw(sets: Table, h: ArtifactHash, reason: Option<string>, now: int): (Table, bool) {
    if h in sets && !sets[h].status.Superseded?
    then (sets[h := sets[h].(status := Superseded, supersededAt := Some(now), supersededBy := None, reason := reason, updatedAt := now)], true)
    else (sets, false)
  }

  // ---- The mutable table

  class Database {
    var sets: Table

    constructor ()
      ensures sets == map[]
    {
      sets := map[];
    }

    method StageOrResumeGeneratorArtifact(p: Recipe, a: StageRequest, files: seq<FileRow>, now: int)
      returns (r: Result<Row, Conflict>)
      modifies this
      ensures (sets, r) == StageOrResume(old(sets), p, a, files, now)
    {
      if !StageArgumentsAgree(p, a, files) {
        return Err(Conflict);
      }
      var file := files[0];
      var h := HashOf(p, a.outputKind, a.format);
      var before := sets;
      if h !in sets {
        if KeyTaken(sets, file.objectKey) {
          return Err(Conflict);
        }
        sets := sets[h := FreshRow(p, a, file, now)];
      }
      var loaded := Load(sets, p, a.outputKind, a.format);
      if loaded.Err? || loaded.value.None? {
        sets := before;
        return Err(Conflict);
      }
      var row := loaded.value.value;
      if row.objectKey != a.objectKey || row.presentation != a.presentation || row.file != file {
        sets := before;
        return Err(Conflict);
      }
      return Ok(row);
    }

    method FailGeneratorArtifact(h: ArtifactHash, now: int) returns (changed: bool)
      modifies this
      ensures (sets, changed) == Fail(old(sets), h, now)
    {
      changed := h in sets && sets[h].processing.Some? && Pending(sets[h]) && Unmarked(sets[h]);
      if changed {
        sets := sets[h := sets[h].(status := UploadFailed, updatedAt := Advance(sets[h].updatedAt, now))];
      }
    }

    method FailReadyGeneratorVerification(h: ArtifactHash, expected: int, now: int) returns (changed: bool)
      modifies this
      ensures (sets, changed) == FailReady(old(sets), h, expected, now)
    {
      changed := h in sets && sets[h].processing.Some? && sets[h].status.Ready? && sets[h].updatedAt == expected && Unmarked(sets[h]);
      if changed {
        sets := sets[h := sets[h].(status := UploadFailed, updatedAt := Advance(sets[h].updatedAt, now))];
      }
    }

    method CompleteGeneratorArtifact(p: Recipe, outputKind: string, format: string, key: ObjectKey, now: int)
      returns (r: Result<bool, Conflict>)
      modifies this
      ensures (sets, r) == Complete(old(sets), p, outputKind, format, key, now)
    {
      var h := HashOf(p, outputKind, format);
      var loaded := Load(sets, p, outputKind, format);
      if loaded.Err? {
        return Err(loaded.error);
      }
      if loaded.value.None? {
        return Ok(false);
      }
      var row := loaded.value.value;
      if row.file.objectKey != key {
        return Err(Conflict);
      }
      if !row.status.Ready? {
        sets := MarkReady(sets, h, now);
        sets := ReplaceRivals(sets, h, row, outputKind, now);
      }
      return Ok(true);
    }

    method SupersedeArtifact(h: ArtifactHash, reason: Option<string>, now: int) returns (changed: bool)
      modifies this
      ensures (sets, changed) == Withdraw(old(sets), h, reason, now)
    {
      changed := h in sets && !sets[h].status.Superseded?;
      if changed {
        sets := sets[h := sets[h].(status := Superseded, supersededAt := Some(now), supersededBy := None, reason := reason, updatedAt := now)];
      }
    }
  }

  // ---- What the transactions mean

  /** Staging succeeds exactly when the arguments agree and the row is either new
      or an intact unsuperseded row with the same declaration; a resumed row is
      not touched, and a new row is the only change. */
  lemma StageExact(sets: Table, p: Recipe, a: StageRequest, files: seq<FileRow>, now: int)
    ensures var h := HashOf(p, a.outputKind, a.format);
            var (after, r) := StageOrResume(sets, p, a, files, now);
            && (r.Ok? <==>
                && StageArgumentsAgree(p, a, files)
                && (if h in sets
                    then Load(sets, p, a.outputKind, a.format).Ok? && sets[h].objectKey == a.objectKey
                         && sets[h].presentation == a.presentation && sets[h].file == files[0]
                    else !KeyTaken(sets, a.objectKey)))
            && (r.Err? || h in sets ==> after == sets)
            && (r.Ok? ==>
                && h in after && after[h] == r.value && Live(r.value)
                && r.value.file == files[0] && r.value.presentation == a.presentation
                && after.Keys == sets.Keys + {h}
                && (forall k :: k in sets ==> after[k] == sets[k])
                && (h !in sets ==> r.value.status.Staged? && r.value.updatedAt == now))
  {
  }

  /** Staging in terms of the rows alone: the file is the one generated project, named by
      one path segment, of the recipe's type and within its limit, and what the request
      repeats of it agrees; the row, if it is there, is this declaration's in every column
      but an unsuperseded status and a time. A new row is this declaration, staged now. */
  lemma StageOnFields(sets: Table, p: Recipe, a: StageRequest, files: seq<FileRow>, now: int)
    ensures var h := ArtifactHash(a.outputKind, a.format, p.source, p.config, OptionsHash(a.format, p.dialect, p.options), ProcessingHash(p));
            var (after, r) := StageOrResume(sets, p, a, files, now);
            && (r.Ok? <==>
                  && p.supported && |files| == 1
                  && var file := files[0];
                     && file == FileRow("generated_project", file.logicalPath, None, a.objectKey, a.contentType, a.byteLen, a.sha, file.metadata)
                     && a.contentType == p.mediaType && 1 <= a.byteLen <= p.maxByteLength
                     && file.logicalPath !in ["", ".", ".."]
                     && (forall c :: c in file.logicalPath ==> c != '/' && c != '\\' && c >= ' ' && !(127 <= c as int < 160))
                     && if h in sets
                        then !sets[h].status.Superseded? && sets[h] == Declared(p, a, file, sets[h].status, sets[h].updatedAt)
                        else forall k :: k in sets ==> sets[k].file.objectKey != a.objectKey)
            && (r.Ok? && h !in sets ==> r.value == Declared(p, a, files[0], Staged, now) && after == sets[h := r.value])
            && (r.Ok? && h in sets ==> r.value == sets[h] && after == sets)
            && (r.Err? ==> after == sets)
  {
    if |files| == 1 {
      assert forall i :: 0 <= i < |files[0].logicalPath| ==> files[0].logicalPath[i] in files[0].logicalPath;
    }
  }

  /** A declaration as a row, neither superseded nor withdrawn. */
  ghost function Declared(p: Recipe, a: StageRequest, file: FileRow, status: Status, updatedAt: int): Row {
    Row(p.source, p.config, OptionsHash(a.format, p.dialect, p.options), a.outputKind, a.format,
        Some(ProcessingHash(p)), Some(ProcessingHash(p)), status, a.objectKey, a.presentation, file, updatedAt, None, None, None)
  }

  /** An artifact loads exactly if staging what it declares again would resume it. */
  lemma LoadsExactlyIfResumable(sets: Table, p: Recipe, outputKind: string, format: string, row: Row, now: int)
    ensures var h, file := HashOf(p, outputKind, format), row.file;
            var a := StageRequest(outputKind, format, row.presentation, file.objectKey, file.contentType, file.byteLen, file.sha);
            Load(sets, p, outputKind, format) == Ok(Some(row))
            <==> h in sets && row == sets[h] && StageOrResume(sets, p, a, [file], now) == (sets, Ok(row))
    ensures Load(sets, p, outputKind, format) == Ok(None) <==> HashOf(p, outputKind, format) !in sets
  {
  }

  /** Completion in full: which rows change, to what, and when it succeeds. A ready row
      is superseded exactly if source, configuration, options and output kind are all
      those of the completed one. */
  lemma CompleteExact(sets: Table, p: Recipe, outputKind: string, format: string, key: ObjectKey, now: int)
    ensures var h := HashOf(p, outputKind, format);
            var (after, r) := Complete(sets, p, outputKind, format, key, now);
            && after.Keys == sets.Keys
            && (r == Ok(true) <==> h in sets && Load(sets, p, outputKind, format).Ok? && sets[h].file.objectKey == key)
            && (r == Ok(false) <==> h !in sets)
            && (r != Ok(true) || sets[h].status.Ready? ==> after == sets)
            && (r == Ok(true) && !sets[h].status.Ready? ==>
                && after[h] == sets[h].(status := Ready, updatedAt := after[h].updatedAt)
                && after[h].updatedAt > sets[h].updatedAt
                && forall k :: k in sets && k != h ==>
                     after[k] == if sets[k].status.Ready? && sets[k].source == p.source && sets[k].config == p.config
                                    && sets[k].options == OptionsHash(format, p.dialect, p.options) && sets[k].outputKind == outputKind
                                 then sets[k].(status := Superseded, supersededAt := Some(now), supersededBy := Some(h),
                                               reason := Some("replaced"), updatedAt := now)
                                 else sets[k])
  {
  }

  /** Only row `h` differs, and only in status and a later timestamp. */
  predicate Demoted(sets: Table, after: Table, h: ArtifactHash) {
    && h in sets && after.Keys == sets.Keys
    && (forall k :: k in sets && k != h ==> after[k] == sets[k])
    && after[h] == sets[h].(status := UploadFailed, updatedAt := after[h].updatedAt)
    && after[h].updatedAt > sets[h].updatedAt
  }

  /** A failed upload demotes a pending generator row and leaves any other row, ready or
      superseded, alone; whatever could be staged before can be staged again after. */
  lemma FailExact(sets: Table, h: ArtifactHash, now: int, p: Recipe, a: StageRequest, files: seq<FileRow>, later: int)
    requires h == HashOf(p, a.outputKind, a.format)
    ensures var (after, changed) := Fail(sets, h, now);
            && (changed <==> h in sets && sets[h].processing.Some? && Pending(sets[h]) && Unmarked(sets[h]))
            && (if changed then Demoted(sets, after, h) else after == sets)
            && (StageOrResume(after, p, a, files, later).1.Ok? <==> StageOrResume(sets, p, a, files, later).1.Ok?)
  {
    var (after, changed) := Fail(sets, h, now);
    StageExact(sets, p, a, files, later);
    StageExact(after, p, a, files, later);
    hide StageOrResume;
  }

  /** A failed check demotes a ready row only at the revision given, once: the revision
      is spent, and a repeated call with it does nothing. */
  lemma FailReadyExact(sets: Table, h: ArtifactHash, expected: int, now: int, later: int)
    ensures var (after, changed) := FailReady(sets, h, expected, now);
            && (changed <==> h in sets && sets[h].processing.Some? && sets[h].status.Ready? && Unmarked(sets[h])
                             && sets[h].updatedAt == expected)
            && (if changed then Demoted(sets, after, h) else after == sets)
            && (changed ==> FailReady(after, h, expected, later) == (after, false))
  {
  }

  /** A withdrawal marks any unsuperseded row and no other; afterwards no transaction on
      the row succeeds or changes anything. */
  lemma WithdrawExact(sets: Table, h: ArtifactHash, reason: Option<string>, now: int, p: Recipe, a: StageRequest, files: seq<FileRow>,
                      key: ObjectKey, expected: int, later: int)
    requires h == HashOf(p, a.outputKind, a.format)
    ensures var (after, changed) := Withdraw(sets, h, reason, now);
            && (changed <==> h in sets && !sets[h].status.Superseded?)
            && (!changed ==> after == sets)
            && after.Keys == sets.Keys && (forall k :: k in sets && k != h ==> after[k] == sets[k])
            && (changed ==> after[h] == sets[h].(status := Superseded, supersededAt := Some(now), supersededBy := None, reason := reason, updatedAt := now))
            && (h in sets ==>
                  && after[h].status.Superseded? && after[h].file == sets[h].file && after[h].presentation == sets[h].presentation
                  && Fail(after, h, later) == (after, false)
                  && FailReady(after, h, expected, later) == (after, false)
                  && Withdraw(after, h, reason, later) == (after, false)
                  && Complete(after, p, a.outputKind, a.format, key, later) == (after, Err(Conflict))
                  && StageOrResume(after, p, a, files, later) == (after, Err(Conflict)))
  {
    var (after, changed) := Withdraw(sets, h, reason, now);
    StageExact(after, p, a, files, later);
    hide StageOrResume;
    StageConflictRollsBack(after, p, a, files, later);
  }

  lemma StageConflictRollsBack(sets: Table, p: Recipe, a: StageRequest, files: seq<FileRow>, now: int)
    ensures StageOrResume(sets, p, a, files, now).1.Err? ==> StageOrResume(sets, p, a, files, now) == (sets, Err(Conflict))
  {
  }
}
