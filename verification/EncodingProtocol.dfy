/** Racing resolvers over the encoding and selection tables, starting from tables
    with arbitrary contents. One event is one statement or one encoder answer. */
module EncodingProtocol {
  import opened Core
  import opened Encodings

  datatype Job = Job(origin: string, source: Source, typed: Typed, requireQuery: bool, forExport: bool)

  /** What to do once the selection is retained: return a hit, or insert. */
  datatype Continuation = Hit | Insert(record: Record)

  datatype Phase =
    | ExportLookup
    | Lookup
    | Encoding
    | Retaining(next: Continuation, resolution: Resolution)
    | Confirming(next: Continuation, resolution: Resolution)
    | Inserting(record: Record, resolution: Resolution)
    | ReadingWinner(resolution: Resolution)
    | Done(resolution: Resolution)
    | Failed

  datatype Resolver = Resolver(job: Job, expected: Expected, phase: Phase)

  datatype State = State(encodings: EncodingTable, selections: SelectionTable, resolvers: map<nat, Resolver>)

  datatype Event =
    | Spawn(n: nat, job: Job)
    | Look(n: nat, versionStillResolves: bool)
    | Answer(n: nat, response: Option<Response>)
    | Retain(n: nat)
    | Confirm(n: nat)
    | InsertRow(n: nat)
    | ReadWinner(n: nat)
    | Upsert(source: Source, typed: Typed)
    | Crash(n: nat)

  function Goto(s: State, n: nat, phase: Phase): State
    requires n in s.resolvers
  {
    s.(resolvers := s.resolvers[n := s.resolvers[n].(phase := phase)])
  }

  /** A miss of the export lookup resolves the version again before the second
      lookup; a changed microversion no longer matches the bound hashes. */
  function AfterLook(s: State, r: Resolver, versionStillResolves: bool): Phase {
    if r.expected.key in s.encodings then
      match Validate(s.encodings[r.expected.key], r.expected, r.job.requireQuery)
      case Some(resolution) => Retaining(Hit, resolution)
      case None => Failed
    else if r.phase.ExportLookup? then (if versionStillResolves then Lookup else Failed)
    else Encoding
  }

  function AfterAnswer(r: Resolver, response: Option<Response>): Phase {
    if response.None? then Failed
    else
      var record := FreshRecord(r.expected, response.value, r.job.requireQuery);
      if record.None? then Failed
      else
        match Validate(record.value, r.expected, r.job.requireQuery)
        case Some(resolution) => Retaining(Insert(record.value), resolution)
        case None => Failed
  }

  function AfterConfirm(s: State, r: Resolver): Phase
    requires r.phase.Confirming?
  {
    var config := r.expected.key.config;
    if config !in s.selections || s.selections[config] != Some(r.job.typed) then Failed
    else
      match r.phase.next
      case Hit => Done(r.phase.resolution)
      case Insert(record) => Inserting(record, r.phase.resolution)
  }

  function AfterWinner(s: State, r: Resolver): Phase
    requires r.phase.ReadingWinner?
  {
    if r.expected.key !in s.encodings then Failed
    else
      match Validate(s.encodings[r.expected.key], r.expected, r.job.requireQuery)
      case None => Failed
      case Some(winner) =>
        if winner.handoff.encodedId != r.phase.resolution.handoff.encodedId
           || (r.job.requireQuery && winner.queryParam != r.phase.resolution.queryParam)
        then Failed
        else Done(winner)
  }

  function SpawnStep(s: State, n: nat, job: Job): State {
    var expected := ExpectedFor(job.origin, job.source, job.typed);
    if n in s.resolvers || expected.None? then s
    else s.(resolvers := s.resolvers[n := Resolver(job, expected.value, if job.forExport then ExportLookup else Lookup)])
  }

  function InsertStep(s: State, n: nat): State
    requires n in s.resolvers && s.resolvers[n].phase.Inserting?
  {
    var phase := s.resolvers[n].phase;
    var (encodings, inserted) := InsertIfAbsent(s.encodings, phase.record.key, phase.record);
    Goto(s.(encodings := encodings), n, if inserted then Done(phase.resolution) else ReadingWinner(phase.resolution))
  }

  predicate LooksUp(phase: Phase) {
    phase.ExportLookup? || phase.Lookup?
  }

  function Next(s: State, e: Event): State {
    match e
    case Spawn(n, job) => SpawnStep(s, n, job)
    case Crash(n) => s.(resolvers := s.resolvers - {n})
    case Upsert(source, typed) =>
      s.(selections := s.selections[ConfigHash(SourceHashOf(source), typed) := Some(typed)])
    case Look(n, same) =>
      if n in s.resolvers && LooksUp(s.resolvers[n].phase) then Goto(s, n, AfterLook(s, s.resolvers[n], same)) else s
    case Answer(n, response) =>
      if n in s.resolvers && s.resolvers[n].phase.Encoding? then Goto(s, n, AfterAnswer(s.resolvers[n], response)) else s
    case Retain(n) =>
      if n in s.resolvers && s.resolvers[n].phase.Retaining? then
        var r := s.resolvers[n];
        Goto(s.(selections := InsertIfAbsent(s.selections, r.expected.key.config, Some(r.job.typed)).0), n,
             Confirming(r.phase.next, r.phase.resolution))
      else s
    case Confirm(n) =>
      if n in s.resolvers && s.resolvers[n].phase.Confirming? then Goto(s, n, AfterConfirm(s, s.resolvers[n])) else s
    case InsertRow(n) =>
      if n in s.resolvers && s.resolvers[n].phase.Inserting? then InsertStep(s, n) else s
    case ReadWinner(n) =>
      if n in s.resolvers && s.resolvers[n].phase.ReadingWinner? then Goto(s, n, AfterWinner(s, s.resolvers[n])) else s
  }

  /** The state after the first `i` events, from any tables and no resolver. */
  function At(init: State, es: seq<Event>, i: nat): State
    requires init.resolvers == map[] && i <= |es|
  {
    if i == 0 then init else Next(At(init, es, i - 1), es[i - 1])
  }

  // ---- Invariant

  predicate SelectionRetained(s: State, r: Resolver) {
    r.expected.key.config in s.selections && s.selections[r.expected.key.config] == Some(r.job.typed)
  }

  predicate RowProves(s: State, r: Resolver, resolution: Resolution) {
    r.expected.key in s.encodings
    && Validate(s.encodings[r.expected.key], r.expected, r.job.requireQuery) == Some(resolution)
  }

  /** What a pending continuation relies on. */
  predicate NextOk(s: State, r: Resolver, next: Continuation, resolution: Resolution) {
    match next
    case Hit => RowProves(s, r, resolution)
    case Insert(record) => Validate(record, r.expected, r.job.requireQuery) == Some(resolution)
  }

  predicate ResolverOk(s: State, r: Resolver) {
    && ExpectedFor(r.job.origin, r.job.source, r.job.typed) == Some(r.expected)
    && match r.phase
       case Retaining(next, resolution) => NextOk(s, r, next, resolution)
       case Confirming(next, resolution) => NextOk(s, r, next, resolution)
       case Inserting(record, resolution) => SelectionRetained(s, r) && NextOk(s, r, Insert(record), resolution)
       case ReadingWinner(_) => SelectionRetained(s, r)
       case Done(resolution) => SelectionRetained(s, r) && RowProves(s, r, resolution)
       case _ => true
  }

  ghost predicate Inv(s: State) {
    forall n :: n in s.resolvers ==> ResolverOk(s, s.resolvers[n])
  }

  /** Evidence rows never change; a selection row that shows its own
      configuration's values never changes. */
  ghost predicate Grows(before: State, after: State) {
    && (forall k :: k in before.encodings ==> k in after.encodings && after.encodings[k] == before.encodings[k])
    && (forall c :: c in before.selections && before.selections[c] == Some(c.typed) ==>
          c in after.selections && after.selections[c] == before.selections[c])
  }

  lemma NextGrows(s: State, e: Event)
    ensures Grows(s, Next(s, e))
  {
    hide Validate, FreshRecord, ExpectedFor, AfterLook, AfterAnswer, AfterConfirm, AfterWinner;
  }

  lemma GrowthKeepsResolver(before: State, after: State, r: Resolver)
    requires Grows(before, after) && ResolverOk(before, r)
    ensures ResolverOk(after, r)
  {
    hide Validate;
  }

  lemma ActingResolverIsOk(s: State, e: Event, n: nat)
    requires n in s.resolvers && ResolverOk(s, s.resolvers[n]) && n in Next(s, e).resolvers
    requires Next(s, e).resolvers[n] != s.resolvers[n]
    ensures ResolverOk(Next(s, e), Next(s, e).resolvers[n])
  {
    match e
    case Answer(_, response) => if response.Some? { FreshIsValid(s.resolvers[n].expected, response.value, s.resolvers[n].job.requireQuery); }
    case InsertRow(_) => ValidIdentifies(s.resolvers[n].phase.record, s.resolvers[n].expected, s.resolvers[n].job.requireQuery);
    case _ =>
    hide Validate, FreshRecord, ResponseIdentity;
  }

  lemma {:induction false} NextKeepsResolver(s: State, e: Event, n: nat)
    requires Inv(s) && n in Next(s, e).resolvers
    ensures ResolverOk(Next(s, e), Next(s, e).resolvers[n])
  {
    if n in s.resolvers {
      if Next(s, e).resolvers[n] == s.resolvers[n] {
        hide Next;
        NextGrows(s, e);
        GrowthKeepsResolver(s, Next(s, e), s.resolvers[n]);
      } else {
        hide Next;
        ActingResolverIsOk(s, e, n);
      }
    } else {
      hide Next;
      NewResolverIsOk(s, e, n);
    }
  }

  lemma NewResolverIsOk(s: State, e: Event, n: nat)
    requires n !in s.resolvers && n in Next(s, e).resolvers
    ensures ResolverOk(Next(s, e), Next(s, e).resolvers[n])
  {
    hide Validate, FreshRecord, AfterLook, AfterAnswer, AfterConfirm, AfterWinner, ExpectedFor;
    assert e.Spawn? && e.n == n;
    assert Next(s, e) == SpawnStep(s, n, e.job);
  }

  lemma {:induction false} RunKeepsInv(init: State, es: seq<Event>, i: nat)
    requires init.resolvers == map[] && i <= |es|
    ensures Inv(At(init, es, i))
  {
    if i > 0 {
      RunKeepsInv(init, es, i - 1);
      hide Next, ResolverOk;
      forall n | n in At(init, es, i).resolvers
        ensures ResolverOk(At(init, es, i), At(init, es, i).resolvers[n])
      {
        NextKeepsResolver(At(init, es, i - 1), es[i - 1], n);
      }
    }
  }

  lemma {:induction false} RunGrows(init: State, es: seq<Event>, i: nat, j: nat)
    requires init.resolvers == map[] && i <= j <= |es|
    ensures Grows(At(init, es, i), At(init, es, j))
  {
    hide Next;
    if i < j {
      RunGrows(init, es, i, j - 1);
      NextGrows(At(init, es, j - 1), es[j - 1]);
    }
  }

  // ---- Agreement

  predicate Resolved(s: State, n: nat) {
    n in s.resolvers && s.resolvers[n].phase.Done?
  }

  /** Whatever the encoder answers and however resolvers interleave, everyone who
      succeeds on a key gets the id of the one stored row, from then on. */
  lemma ResolversAgree(init: State, es: seq<Event>, i: nat, j: nat, n: nat)
    requires init.resolvers == map[] && i <= j <= |es| && Resolved(At(init, es, i), n)
    ensures var r := At(init, es, i).resolvers[n];
            && r.phase.resolution.handoff.key == r.expected.key && r.expected.key in At(init, es, j).encodings
            && r.phase.resolution.handoff.encodedId == At(init, es, j).encodings[r.expected.key].encodedId
  {
    hide At, Next;
    RunKeepsInv(init, es, i);
    var r := At(init, es, i).resolvers[n];
    assert ResolverOk(At(init, es, i), r);
    ValidIdentifies(At(init, es, i).encodings[r.expected.key], r.expected, r.job.requireQuery);
    RunGrows(init, es, i, j);
  }

  /** Every handoff returned passes planning's check in every later state. */
  lemma HandoffsStayValid(init: State, es: seq<Event>, i: nat, j: nat, n: nat)
    requires init.resolvers == map[] && i <= j <= |es| && Resolved(At(init, es, i), n)
    ensures var r, s := At(init, es, i).resolvers[n], At(init, es, j);
            HandoffValid(s.encodings, s.selections, r.job.origin, r.job.source, r.phase.resolution.handoff)
  {
    hide At, Next;
    RunKeepsInv(init, es, i);
    var r := At(init, es, i).resolvers[n];
    assert ResolverOk(At(init, es, i), r);
    ValidIdentifies(At(init, es, i).encodings[r.expected.key], r.expected, r.job.requireQuery);
    RunGrows(init, es, i, j);
  }

  // ---- Where ids come from

  predicate Holding(phase: Phase) {
    phase.Inserting? || ((phase.Retaining? || phase.Confirming?) && phase.next.Insert?)
  }

  function Held(phase: Phase): Record
    requires Holding(phase)
  {
    if phase.Inserting? then phase.record else phase.next.record
  }

  /** Among the first `i` events the encoder gave this answer to a resolver of this key. */
  ghost predicate Answered(init: State, es: seq<Event>, i: nat, a: nat, key: Key, response: Response)
    requires init.resolvers == map[] && i <= |es|
  {
    && a < i && es[a].Answer? && es[a].response == Some(response)
    && es[a].n in At(init, es, a).resolvers && At(init, es, a).resolvers[es[a].n].expected.key == key
  }

  /** The record shows an answer that the encoder gave for its key during the run. */
  ghost predicate FromAnswer(init: State, es: seq<Event>, i: nat, record: Record)
    requires init.resolvers == map[] && i <= |es|
  {
    record.response.Some? && exists a :: Answered(init, es, i, a, record.key, record.response.value)
  }

  ghost predicate AnswersOk(init: State, es: seq<Event>, i: nat, s: State)
    requires init.resolvers == map[] && i <= |es|
  {
    && (forall n :: n in s.resolvers && Holding(s.resolvers[n].phase) ==> FromAnswer(init, es, i, Held(s.resolvers[n].phase)))
    && (forall k :: k in s.encodings ==>
          (k in init.encodings && s.encodings[k] == init.encodings[k]) || FromAnswer(init, es, i, s.encodings[k]))
  }

  /** A resolver comes to hold a record only by an answer, and the record shows it. */
  lemma HeldIsAnswered(s: State, e: Event, n: nat)
    requires n in Next(s, e).resolvers && Holding(Next(s, e).resolvers[n].phase)
    ensures var held := Held(Next(s, e).resolvers[n].phase);
            || (n in s.resolvers && Holding(s.resolvers[n].phase) && held == Held(s.resolvers[n].phase))
            || (e.Answer? && e.n == n && e.response.Some? && held.response == e.response
                && n in s.resolvers && s.resolvers[n].expected.key == held.key)
  {
    hide Validate, ExpectedFor, FreshRecord;
    if e.Answer? && e.response.Some? && e.n in s.resolvers {
      var r := s.resolvers[e.n];
      FreshRecordExact(r.expected, e.response.value, r.job.requireQuery);
    }
  }

  /** A row that was not there was held by the resolver that inserts it. */
  lemma InsertedIsHeld(s: State, e: Event, k: Key)
    requires k in Next(s, e).encodings
    ensures || (k in s.encodings && Next(s, e).encodings[k] == s.encodings[k])
            || (e.InsertRow? && e.n in s.resolvers && Holding(s.resolvers[e.n].phase) && Next(s, e).encodings[k] == Held(s.resolvers[e.n].phase))
  {
    hide Validate, ExpectedFor, FreshRecord, AfterLook, AfterAnswer, AfterConfirm, AfterWinner;
  }

  lemma AnswersStay(init: State, es: seq<Event>, i: nat, record: Record)
    requires init.resolvers == map[] && i < |es| && FromAnswer(init, es, i, record)
    ensures FromAnswer(init, es, i + 1, record)
  {
    hide At;
    var a :| Answered(init, es, i, a, record.key, record.response.value);
    assert Answered(init, es, i + 1, a, record.key, record.response.value);
  }

  lemma {:induction false} RunKeepsAnswers(init: State, es: seq<Event>, i: nat)
    requires init.resolvers == map[] && i <= |es|
    ensures AnswersOk(init, es, i, At(init, es, i))
  {
    hide Next, FromAnswer;
    if i > 0 {
      RunKeepsAnswers(init, es, i - 1);
      var s, e, after := At(init, es, i - 1), es[i - 1], At(init, es, i);
      forall n | n in after.resolvers && Holding(after.resolvers[n].phase)
        ensures FromAnswer(init, es, i, Held(after.resolvers[n].phase))
      {
        HeldIsAnswered(s, e, n);
        if e.Answer? && e.n == n && e.response.Some? && Held(after.resolvers[n].phase).response == e.response
           && n in s.resolvers && s.resolvers[n].expected.key == Held(after.resolvers[n].phase).key {
          AnswerNow(init, es, i, n, Held(after.resolvers[n].phase));
        } else {
          AnswersStay(init, es, i - 1, Held(s.resolvers[n].phase));
        }
      }
      forall k | k in after.encodings
        ensures (k in init.encodings && after.encodings[k] == init.encodings[k]) || FromAnswer(init, es, i, after.encodings[k])
      {
        InsertedIsHeld(s, e, k);
        if !(k in init.encodings && after.encodings[k] == init.encodings[k]) { AnswersStay(init, es, i - 1, after.encodings[k]); }
      }
    }
  }

  lemma AnswerNow(init: State, es: seq<Event>, i: nat, n: nat, record: Record)
    requires init.resolvers == map[] && 0 < i <= |es|
    requires var e, s := es[i - 1], At(init, es, i - 1);
             && e.Answer? && e.n == n && e.response.Some? && record.response == e.response
             && n in s.resolvers && s.resolvers[n].expected.key == record.key
    ensures FromAnswer(init, es, i, record)
  {
    assert Answered(init, es, i, i - 1, record.key, record.response.value);
  }

  /** However resolvers race, whoever succeeds returns the encoded id, and the query
      parameter if it is usable, of an answer: one the encoder gave during the run, or one
      that was stored under its key from the start. */
  lemma ReturnedIdIsAnswered(init: State, es: seq<Event>, i: nat, n: nat)
    requires init.resolvers == map[] && i <= |es| && Resolved(At(init, es, i), n)
    ensures var r, encodings := At(init, es, i).resolvers[n], At(init, es, i).encodings;
            && r.expected.key in encodings
            && var row := encodings[r.expected.key];
               && row.response.Some? && row.response.value.encodedId == Some(r.phase.resolution.handoff.encodedId)
               && Carries(r.phase.resolution.queryParam, row.response.value)
               && ((r.expected.key in init.encodings && init.encodings[r.expected.key] == row)
                   || exists a :: Answered(init, es, i, a, r.expected.key, row.response.value))
  {
    hide At, Next, Validate;
    RunKeepsInv(init, es, i);
    RunKeepsAnswers(init, es, i);
    var r := At(init, es, i).resolvers[n];
    assert ResolverOk(At(init, es, i), r);
    ValidateExact(At(init, es, i).encodings[r.expected.key], r.expected, r.job.requireQuery);
  }

  /** The encoder may be asked, and a row may be written, only by a resolver that
      found none. */
  predicate MayEncode(phase: Phase) {
    phase.Encoding? || phase.Inserting?
    || ((phase.Retaining? || phase.Confirming?) && phase.next.Insert?)
  }

  lemma EncodingNeedsAMiss(s: State, e: Event, n: nat)
    requires n in Next(s, e).resolvers && MayEncode(Next(s, e).resolvers[n].phase)
    ensures n in s.resolvers && Next(s, e).resolvers[n].expected == s.resolvers[n].expected
    ensures MayEncode(s.resolvers[n].phase)
            || (e.Look? && e.n == n && s.resolvers[n].phase.Lookup? && s.resolvers[n].expected.key !in s.encodings)
  {
    hide Validate, FreshRecord, ExpectedFor;
  }

  /** Whoever asks the encoder had read the absence of a row earlier in the run. */
  lemma {:induction false} OnlyAbsenceLeadsToEncoding(init: State, es: seq<Event>, i: nat, n: nat) returns (a: nat)
    requires init.resolvers == map[] && i <= |es|
    requires n in At(init, es, i).resolvers && MayEncode(At(init, es, i).resolvers[n].phase)
    ensures a < i && es[a].Look? && es[a].n == n && n in At(init, es, a).resolvers
    ensures At(init, es, a).resolvers[n].expected == At(init, es, i).resolvers[n].expected
    ensures At(init, es, i).resolvers[n].expected.key !in At(init, es, a).encodings
  {
    hide Next;
    assert i > 0;
    var s := At(init, es, i - 1);
    EncodingNeedsAMiss(s, es[i - 1], n);
    if MayEncode(s.resolvers[n].phase) {
      a := OnlyAbsenceLeadsToEncoding(init, es, i - 1, n);
    } else {
      a := i - 1;
    }
  }

  predicate PastExportLookup(r: Resolver) {
    r.job.forExport && (r.phase.Lookup? || MayEncode(r.phase))
  }

  lemma LeavingExportLookup(s: State, e: Event, n: nat)
    requires n in Next(s, e).resolvers && PastExportLookup(Next(s, e).resolvers[n])
    ensures n in s.resolvers && Next(s, e).resolvers[n].expected == s.resolvers[n].expected
    ensures PastExportLookup(s.resolvers[n])
            || (e == Look(n, true) && s.resolvers[n].phase.ExportLookup? && s.resolvers[n].expected.key !in s.encodings)
  {
    hide Validate, FreshRecord, ExpectedFor;
  }

  /** An export comes to encode only after a lookup of its own found no row and the version
      still resolved to what the export is bound to. */
  lemma {:induction false} ExportsResolveAgain(init: State, es: seq<Event>, i: nat, n: nat) returns (a: nat)
    requires init.resolvers == map[] && i <= |es|
    requires n in At(init, es, i).resolvers && PastExportLookup(At(init, es, i).resolvers[n])
    ensures a < i && es[a] == Look(n, true) && n in At(init, es, a).resolvers && At(init, es, a).resolvers[n].phase.ExportLookup?
    ensures At(init, es, i).resolvers[n].expected.key !in At(init, es, a).encodings
  {
    hide Next, PastExportLookup;
    assert i > 0;
    var s := At(init, es, i - 1);
    LeavingExportLookup(s, es[i - 1], n);
    if PastExportLookup(s.resolvers[n]) {
      a := ExportsResolveAgain(init, es, i - 1, n);
    } else {
      a := i - 1;
    }
  }

  /** A resolver that lost the race takes the winner's row exactly if that is valid for it
      and shows the id, and for an export the query parameter, of its own answer. */
  lemma LosersAgree(s: State, n: nat)
    requires n in s.resolvers && s.resolvers[n].phase.ReadingWinner?
    ensures var r := s.resolvers[n];
            var own := r.phase.resolution;
            Resolved(Next(s, ReadWinner(n)), n)
            <==> && r.expected.key in s.encodings
                 && var row := s.encodings[r.expected.key];
                    && Validate(row, r.expected, r.job.requireQuery).Some? && row.encodedId == own.handoff.encodedId
                    && (r.job.requireQuery ==> row.queryParam == own.queryParam)
  {
    var r := s.resolvers[n];
    if r.expected.key in s.encodings { ValidateExact(s.encodings[r.expected.key], r.expected, r.job.requireQuery); }
    hide Validate;
  }

  lemma EncodersFoundNoInitialRow(init: State, es: seq<Event>, i: nat, n: nat)
    requires init.resolvers == map[] && i <= |es|
    requires n in At(init, es, i).resolvers && MayEncode(At(init, es, i).resolvers[n].phase)
    ensures At(init, es, i).resolvers[n].expected.key !in init.encodings
  {
    hide Next;
    var a := OnlyAbsenceLeadsToEncoding(init, es, i, n);
    RunGrows(init, es, 0, a);
  }

  /** A row present from the start is never overwritten and, for its key, no
      resolver ever comes to encode: an invalid row fails its readers instead. */
  lemma PresentRowsAreFinal(init: State, es: seq<Event>, i: nat, n: nat)
    requires init.resolvers == map[] && i <= |es| && n in At(init, es, i).resolvers
    requires At(init, es, i).resolvers[n].expected.key in init.encodings
    ensures var r := At(init, es, i).resolvers[n];
            && r.expected.key in At(init, es, i).encodings
            && At(init, es, i).encodings[r.expected.key] == init.encodings[r.expected.key]
            && !MayEncode(r.phase)
            && (Validate(init.encodings[r.expected.key], r.expected, r.job.requireQuery).None? ==> !r.phase.Done?)
  {
    var r := At(init, es, i).resolvers[n];
    RunGrows(init, es, 0, i);
    RunKeepsInv(init, es, i);
    assert ResolverOk(At(init, es, i), r);
    if MayEncode(r.phase) {
      EncodersFoundNoInitialRow(init, es, i, n);
    }
  }

  // ---- Rows without a query parameter

  /** What a resolver undisturbed makes of a stored row: look it up, retain the
      selection, confirm it. */
  function Hits(s: State, n: nat, same: bool): State {
    Next(Next(Next(s, Look(n, same)), Retain(n)), Confirm(n))
  }

  /** A resolver that finds a row resolves, undisturbed, exactly if the row is valid for
      it and its selection is free or agrees. */
  lemma HitResolvesExactly(s: State, n: nat, same: bool)
    requires n in s.resolvers && LooksUp(s.resolvers[n].phase) && s.resolvers[n].expected.key in s.encodings
    ensures var r := s.resolvers[n];
            Resolved(Hits(s, n, same), n)
            <==> Validate(s.encodings[r.expected.key], r.expected, r.job.requireQuery).Some?
                 && (r.expected.key.config in s.selections ==> s.selections[r.expected.key.config] == Some(r.job.typed))
  {
    hide Validate, ExpectedFor, FreshRecord;
    var r := s.resolvers[n];
    var resolution := Validate(s.encodings[r.expected.key], r.expected, r.job.requireQuery);
    var s1 := Next(s, Look(n, same));
    assert s1.resolvers[n] == r.(phase := if resolution.Some? then Retaining(Hit, resolution.value) else Failed);
    var s2 := Next(s1, Retain(n));
    if resolution.Some? {
      assert s2.resolvers[n] == r.(phase := Confirming(Hit, resolution.value));
    }
  }

  /** An export that finds a row resolves exactly if a plain resolver would and the row
      shows a usable query parameter. */
  lemma ExportHitResolvesExactly(s: State, n: nat, same: bool)
    requires n in s.resolvers && LooksUp(s.resolvers[n].phase) && s.resolvers[n].expected.key in s.encodings
    requires s.resolvers[n].job.requireQuery
    ensures var r := s.resolvers[n]; var row := s.encodings[r.expected.key];
            Resolved(Hits(s, n, same), n)
            <==> Validate(row, r.expected, false).Some? && UsableQuery(row)
                 && (r.expected.key.config in s.selections ==> s.selections[r.expected.key.config] == Some(r.job.typed))
  {
    hide Validate, UsableQuery, Hits;
    HitResolvesExactly(s, n, same);
    ExportNeedsQuery(s.encodings[s.resolvers[n].expected.key], s.resolvers[n].expected);
  }

  /** And once such a row is stored no run ever resolves an export for its key. */
  lemma NoQueryBlocksExports(init: State, es: seq<Event>, i: nat, j: nat, n: nat)
    requires init.resolvers == map[] && i <= j <= |es| && n in At(init, es, j).resolvers
    requires var r := At(init, es, j).resolvers[n];
             r.job.requireQuery && r.expected.key in At(init, es, i).encodings && !UsableQuery(At(init, es, i).encodings[r.expected.key])
    ensures !Resolved(At(init, es, j), n)
  {
    hide At, Next, Validate, UsableQuery;
    RunGrows(init, es, i, j);
    RunKeepsInv(init, es, j);
    var r := At(init, es, j).resolvers[n];
    assert ResolverOk(At(init, es, j), r);
    ExportNeedsQuery(At(init, es, j).encodings[r.expected.key], r.expected);
  }

  // ---- A run that stores one

  const EMPTY := State(map[], map[], map[])
  const PLACE := Source("d", "v", "m", "e", "k")
  const PLAN := Job("o", PLACE, map[], false, false)
  const EXPORTING := Job("o", PLACE, map[], true, true)
  const BARE := Response(Some("id"), None)

  lemma {:induction false} PrefixRuns(init: State, es: seq<Event>, e: Event, i: nat)
    requires init.resolvers == map[] && i <= |es|
    ensures At(init, es + [e], i) == At(init, es, i)
  {
    hide Next;
    if i > 0 {
      assert (es + [e])[i - 1] == es[i - 1];
      PrefixRuns(init, es, e, i - 1);
    }
  }

  lemma Then(es: seq<Event>, e: Event) returns (longer: seq<Event>)
    ensures |longer| == |es| + 1 && longer == es + [e] && At(EMPTY, longer, |longer|) == Next(At(EMPTY, es, |es|), e)
  {
    hide Next;
    longer := es + [e];
    PrefixRuns(EMPTY, es, e, |es|);
  }

  lemma PlanIsExpected() returns (expected: Expected)
    ensures ExpectedFor("o", PLACE, map[]) == Some(expected)
    ensures var record := FreshRecord(expected, BARE, false);
            && record.Some? && record.value.key == expected.key && Validate(record.value, expected, false).Some?
            && !UsableQuery(record.value)
  {
    expected := ExpectedFor("o", PLACE, map[]).value;
    FreshIsValid(expected, BARE, false);
  }

  /** A planning resolver, answered without a query parameter, succeeds and stores its
      row; an export that then starts fails, and will for ever. */
  lemma PlanningBlocksExport() returns (es: seq<Event>)
    ensures var s := At(EMPTY, es, |es|);
            && Resolved(s, 0) && !s.resolvers[0].job.requireQuery
            && 1 in s.resolvers && s.resolvers[1].job == EXPORTING && s.resolvers[1].phase.Failed?
            && s.resolvers[1].expected == s.resolvers[0].expected
            && s.resolvers[0].expected.key in s.encodings && !UsableQuery(s.encodings[s.resolvers[0].expected.key])
  {
    hide At, Validate, FreshRecord, ExpectedFor, UsableQuery;
    var expected := PlanIsExpected();
    var record := FreshRecord(expected, BARE, false).value;
    var resolution := Validate(record, expected, false).value;
    es := [];
    AtStart();
    es := Then(es, Spawn(0, PLAN));
    es := Then(es, Look(0, true));
    es := Then(es, Answer(0, Some(BARE)));
    assert At(EMPTY, es, |es|) == State(map[], map[], map[0 := Resolver(PLAN, expected, Retaining(Insert(record), resolution))]);
    es := StoresPlan(es, expected, record, resolution);
    es := Then(es, Spawn(1, EXPORTING));
    ExportNeedsQuery(record, expected);
    es := Then(es, Look(1, true));
  }

  lemma AtStart()
    ensures At(EMPTY, [], 0) == EMPTY
  {
  }

  lemma StoresPlan(es: seq<Event>, expected: Expected, record: Record, resolution: Resolution) returns (longer: seq<Event>)
    requires At(EMPTY, es, |es|) == State(map[], map[], map[0 := Resolver(PLAN, expected, Retaining(Insert(record), resolution))])
    requires record.key == expected.key
    ensures var s := At(EMPTY, longer, |longer|);
            && s.resolvers == map[0 := Resolver(PLAN, expected, Done(resolution))]
            && s.encodings == map[expected.key := record]
  {
    hide At, Validate, FreshRecord, ExpectedFor;
    longer := Then(es, Retain(0));
    longer := Then(longer, Confirm(0));
    assert At(EMPTY, longer, |longer|).resolvers[0].phase == Inserting(record, resolution);
    longer := Then(longer, InsertRow(0));
  }
}
