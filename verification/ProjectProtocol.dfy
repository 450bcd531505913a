/** Project requests from enqueueing to publication: bambu_project.rs driving the
    request table, the retained snapshots and the publication protocol, with any
    number of concurrent executions that may crash between any two steps. */
module ProjectProtocol {
  import opened Core
  import opened Artifacts
  import opened Publication
  import PP = PublicationProtocol
  import Documents
  import Processing

  /** The deployed generator and the JSON reader, fixed for the run: another deployment
      makes the stored request stale before anything else is read. */
  datatype Deployment = Deployment(
    generator: Documents.Generator, json: Processing.Json, mediaType: string, maxByteLength: u64)

  /** `request_identity` hashes the whole request. */
  datatype RequestId = RequestId(request: Request)

  /** A snapshot identity hashes the receipt: invocation and accepted result. */
  datatype SnapshotId = SnapshotId(processing: ProcessingHash, invocation: Documents.Call, result: ResultDoc)

  datatype RequestRow = RequestRow(json: Request, processing: Option<ProcessingHash>, snapshot: Option<SnapshotId>)

  const PARAMETER_SCHEMA_VERSION := 2

  function TargetOf(d: Deployment, r: Request): Target {
    Target("slicer_project:" + d.generator.dialect, "project_3mf", r.modelSlug + "-bambu-project.3mf",
           Presentation(r.modelSlug, Some(WorkKey(r)), PARAMETER_SCHEMA_VERSION, r.values))
  }

  ghost predicate Yields(d: Deployment, c: Documents.Compatibility, m: Documents.InputManifest, s: Documents.Settings,
                         expected: seq<Documents.Expected>, inputs: Documents.ProtocolInputs, document: Documents.Recipe) {
    var prepared := Processing.Prepare(d.json, d.generator, c, m, s, expected, inputs);
    prepared.Some? && prepared.value.recipe == document
  }

  /** Some acquired inputs prepare to this document under the deployment. */
  ghost predicate IsPrepared(d: Deployment, document: Documents.Recipe) {
    exists c, m, s, expected, inputs :: Yields(d, c, m, s, expected, inputs, document)
  }

  /** `validate_prepared`: the recipe was prepared here and is for this request. */
  ghost predicate PreparedFor(d: Deployment, r: Request, p: Recipe) {
    && IsPrepared(d, p.document) && p == RecipeOf(p.document)
    && p.supported && p.dialect == d.generator.dialect && p.source == r.source
    && p.mediaType == d.mediaType && p.maxByteLength == d.maxByteLength
  }

  /** What reopening the recipe stored under a hash yields. */
  ghost function StoredRecipe(d: Deployment, hash: ProcessingHash): Option<Recipe> {
    var text := Processing.Print(hash.recipe.document);
    var reopened := Processing.Reopen(d.json, d.generator, Processing.TextHash(text), text);
    if reopened.None? then None else Some(RecipeOf(reopened.value.recipe))
  }

  /** The stored text is within the reader's bounds and its numbers survive reading. */
  predicate Readable(d: Deployment, document: Documents.Recipe) {
    d.json.admits(Processing.Print(document)) && Processing.Reread(d.json, document) == document
  }

  lemma PreparedDocumentReopens(d: Deployment, document: Documents.Recipe)
    requires IsPrepared(d, document) && document.decision.Supported?
    ensures var text := Processing.Print(document);
            var reopened := Processing.Reopen(d.json, d.generator, Processing.TextHash(text), text);
            if Readable(d, document) then reopened.Some? && reopened.value.recipe == document else reopened.None?
  {
    hide Processing.Reopen, Processing.Prepare, Processing.Reread;
    var c, m, s, expected, inputs :| Yields(d, c, m, s, expected, inputs, document);
    Processing.ReopenInvertsPrepare(d.json, d.generator, c, m, s, expected, inputs);
    Processing.PreparedIsPrinted(d.json, d.generator, c, m, s, expected, inputs);
    Processing.PreparedPrintsItself(d.json, d.generator, c, m, s, expected, inputs);
  }

  /** The recipe an execution bound is read back identically exactly if its document is
      readable; otherwise nothing is. */
  lemma StoredRecipeExact(d: Deployment, r: Request, p: Recipe)
    requires PreparedFor(d, r, p)
    ensures StoredRecipe(d, ProcessingHash(p)) == if Readable(d, p.document) then Some(p) else None
  {
    hide Processing.Reopen, IsPrepared, Readable;
    PreparedDocumentReopens(d, p.document);
  }

  function SnapshotOf(output: Output): SnapshotId {
    SnapshotId(output.processing, output.invocation, output.result)
  }

  // ---- Executions

  datatype Phase =
    | Reading
    | Acquiring
    | Accepted(p: Recipe, output: Output)
    | Persisted(p: Recipe, output: Output)
    | Publishing(p: Recipe, output: Output)
    | Recovering(p: Recipe, snapshot: Option<SnapshotId>)
    | Reconciling(p: Recipe, snapshot: Option<SnapshotId>, w: nat)
    | Ended

  datatype Execution = Execution(request: Request, phase: Phase)

  datatype State = State(
    requests: map<RequestId, RequestRow>, recipes: set<ProcessingHash>, snapshots: map<SnapshotId, seq<byte>>,
    execs: map<nat, Execution>, pub: PP.State)

  /** What one execution does next; `Acquire` covers acquisition, preparation and
      the generator run, whose outcome the environment chooses. */
  datatype Action =
    | ReadRow
    | Acquire(p: Recipe, output: Output, accepted: bool)
    | Persist(ok: bool)
    | Bind
    | StartPublication(w: nat)
    | StartReconciliation(w: nat)
    | Reopen

  datatype Event =
    | Enqueue(r: Request)
    | Start(x: nat, r: Request)
    | Abandon(x: nat)
    | Act(x: nat, action: Action)
    | Publication(e: PP.Event)

  const INIT := State(map[], {}, map[], map[], PP.INIT)

  function Goto(s: State, x: nat, phase: Phase): State
    requires x in s.execs
  {
    s.(execs := s.execs[x := s.execs[x].(phase := phase)])
  }

  /** `bind_bambu_project_output` once the recipe row exists. */
  function BindRow(row: RequestRow, r: Request, hash: ProcessingHash, snapshot: SnapshotId): Option<RequestRow> {
    if row.json != r || (row.processing.Some? && row.processing.value != hash)
       || (row.snapshot.Some? && row.snapshot.value != snapshot) || row.processing.Some? != row.snapshot.Some?
    then None
    else Some(row.(processing := Some(hash), snapshot := Some(snapshot)))
  }

  /** What `execute_inner` does after reading the request row. */
  ghost function AfterRead(d: Deployment, s: State, r: Request): Phase {
    if RequestId(r) !in s.requests then Ended
    else
      var row := s.requests[RequestId(r)];
      if row.json != r || (row.processing.None? && row.snapshot.Some?) then Ended
      else if row.processing.None? then Acquiring
      else if row.processing.value in s.recipes && StoredRecipe(d, row.processing.value).Some?
      then Recovering(StoredRecipe(d, row.processing.value).value, row.snapshot)
      else Ended
  }

  /** A row can be bound exactly if it is this request's and either unbound in both columns
      or bound to the same recipe and snapshot already. */
  lemma BindExact(row: RequestRow, r: Request, hash: ProcessingHash, snapshot: SnapshotId)
    ensures BindRow(row, r, hash, snapshot).Some?
            <==> row.json == r && (row == RequestRow(r, None, None) || row == RequestRow(r, Some(hash), Some(snapshot)))
    ensures BindRow(row, r, hash, snapshot).Some? ==> BindRow(row, r, hash, snapshot).value == RequestRow(r, Some(hash), Some(snapshot))
  {
  }

  /** An execution acquires exactly for a row of its own that is wholly unbound, and recovers
      exactly if the recipe bound is stored and can be read; anything else ends it. */
  lemma ReadingExact(d: Deployment, s: State, r: Request)
    ensures var phase, id := AfterRead(d, s, r), RequestId(r);
            && (phase.Acquiring? <==> id in s.requests && s.requests[id] == RequestRow(r, None, None))
            && (phase.Recovering? <==>
                  && id in s.requests && s.requests[id].json == r && s.requests[id].processing.Some?
                  && s.requests[id].processing.value in s.recipes && StoredRecipe(d, s.requests[id].processing.value).Some?)
            && (phase.Recovering? ==> phase.snapshot == s.requests[id].snapshot)
            && (phase.Acquiring? || phase.Recovering? || phase.Ended?)
  {
    hide StoredRecipe;
  }

  function EnqueueStep(s: State, r: Request): State {
    if RequestId(r) in s.requests then s
    else s.(requests := s.requests[RequestId(r) := RequestRow(r, None, None)])
  }

  function BindStep(s: State, x: nat): State
    requires x in s.execs && s.execs[x].phase.Persisted?
  {
    var r, phase := s.execs[x].request, s.execs[x].phase;
    var s1 := s.(recipes := s.recipes + {ProcessingHash(phase.p)});
    var bound := if RequestId(r) in s.requests
                 then BindRow(s.requests[RequestId(r)], r, ProcessingHash(phase.p), SnapshotOf(phase.output)) else None;
    if bound.None? then Goto(s1, x, Ended)
    else Goto(s1.(requests := s1.requests[RequestId(r) := bound.value]), x, Publishing(phase.p, phase.output))
  }

  predicate Failed(s: State, w: nat) {
    w in s.pub.workers && s.pub.workers[w].phase == PP.Finished(false)
  }

  function PersistStep(s: State, x: nat): State
    requires x in s.execs && s.execs[x].phase.Accepted?
  {
    var phase := s.execs[x].phase;
    var id := SnapshotOf(phase.output);
    Goto(s.(snapshots := if id in s.snapshots then s.snapshots else s.snapshots[id := phase.output.bytes]),
         x, Persisted(phase.p, phase.output))
  }

  /** A failed reconciliation publishes from the bound snapshot, never anew. */
  function ReopenStep(s: State, x: nat): State
    requires x in s.execs && s.execs[x].phase.Reconciling?
  {
    var phase := s.execs[x].phase;
    if phase.snapshot.None? || phase.snapshot.value !in s.snapshots then Goto(s, x, Ended)
    else
      var id := phase.snapshot.value;
      Goto(s, x, Publishing(phase.p, Output(id.processing, id.invocation, id.result, s.snapshots[id])))
  }

  function SpawnFor(s: State, x: nat, w: nat, job: PP.Job, phase: Phase): State
    requires x in s.execs
  {
    Goto(s.(pub := PP.Next(s.pub, PP.Spawn(w, job))), x, phase)
  }

  ghost function ActStep(d: Deployment, s: State, x: nat, action: Action): State
    requires x in s.execs
  {
    var r, phase := s.execs[x].request, s.execs[x].phase;
    match action
    case ReadRow => if phase.Reading? then Goto(s, x, AfterRead(d, s, r)) else s
    case Acquire(p, output, accepted) =>
      if !phase.Acquiring? then s
      else Goto(s, x, if accepted && PreparedFor(d, r, p) && Sealed(p, output) then Accepted(p, output) else Ended)
    case Persist(ok) =>
      if !phase.Accepted? then s else if ok then PersistStep(s, x) else Goto(s, x, Ended)
    case Bind => if phase.Persisted? then BindStep(s, x) else s
    case StartPublication(w) =>
      if phase.Publishing? && w !in s.pub.workers
      then SpawnFor(s, x, w, PP.PublishJob(phase.p, TargetOf(d, r), phase.output), Ended) else s
    case StartReconciliation(w) =>
      if phase.Recovering? && w !in s.pub.workers && PreparedFor(d, r, phase.p)
      then SpawnFor(s, x, w, PP.ReconcileJob(phase.p, TargetOf(d, r)), Reconciling(phase.p, phase.snapshot, w)) else s
    case Reopen => if phase.Reconciling? && Failed(s, phase.w) then ReopenStep(s, x) else s
  }

  ghost function Next(d: Deployment, s: State, e: Event): State {
    match e
    case Enqueue(r) => EnqueueStep(s, r)
    case Start(x, r) => s.(execs := s.execs[x := Execution(r, Reading)])
    case Abandon(x) => s.(execs := s.execs - {x})
    case Act(x, action) => if x in s.execs then ActStep(d, s, x, action) else s
    case Publication(pe) => if pe.Spawn? then s else s.(pub := PP.Next(s.pub, pe))
  }

  /** The state after the first `i` events; any list of events is a run. */
  ghost function At(d: Deployment, es: seq<Event>, i: nat): State
    requires i <= |es|
  {
    if i == 0 then INIT else Next(d, At(d, es, i - 1), es[i - 1])
  }
}
