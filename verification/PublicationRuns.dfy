/** A worker that nobody disturbs: the steps of the machine, taken one after another,
    have exactly the effect of the publication and reconciliation functions. */
module PublicationRuns {
  import opened Core
  import opened Artifacts
  import opened Publication
  import opened PublicationProtocol

  /** The state after some events, from any state. */
  function Run(s: State, es: seq<Event>): State
    decreases |es|
  {
    if es == [] then s else Run(Next(s, es[0]), es[1..])
  }

  lemma {:induction false} RunAppend(s: State, es: seq<Event>, more: seq<Event>)
    ensures Run(s, es + more) == Run(Run(s, es), more)
    decreases |es|
  {
    hide Next;
    if es == [] {
      assert es + more == more;
    } else {
      assert (es + more)[0] == es[0] && (es + more)[1..] == es[1..] + more;
      RunAppend(Next(s, es[0]), es[1..], more);
    }
  }

  lemma RunOne(s: State, e: Event, more: seq<Event>)
    ensures Run(s, [e] + more) == Run(Next(s, e), more)
  {
    hide Next;
    assert ([e] + more)[1..] == more;
  }

  /** A state in which only worker `w`, the table and storage differ. */
  function Moved(s: State, w: nat, sets: Table, objects: Store, sent: set<Put>, worker: Worker): State {
    State(sets, objects, sent, s.workers[w := worker])
  }

  lemma MovedTwice(s: State, w: nat, sets: Table, objects: Store, sent: set<Put>, worker: Worker,
                   sets2: Table, objects2: Store, sent2: set<Put>, worker2: Worker)
    ensures Moved(Moved(s, w, sets, objects, sent, worker), w, sets2, objects2, sent2, worker2)
            == Moved(s, w, sets2, objects2, sent2, worker2)
  {
    assert s.workers[w := worker][w := worker2] == s.workers[w := worker2];
  }

  // ---- Schedules

  /** Send, let the request land unless it is lost, and receive the reply. */
  function Uploads(s: State, w: nat, fault: PutFault): seq<Event> {
    if HasPhase(s, w, Sending) && s.workers[w].job.PublishJob? then
      var job := s.workers[w].job;
      var put := Put(KeyOf(job.p, job.t), Object(job.p.mediaType, job.output.bytes));
      [Send(w)] + (if fault.LostRequest? then [] else [Land(put)]) + [Ack(w, fault.NoFault?)]
    else []
  }

  /** Verify, clean up, complete, and record a failure if there was one. */
  function Checks(w: nat, faults: Faults, clock: Clock): seq<Event> {
    [Head(w, faults.get), Read(w, false), Cleanup(w, faults.cleanup), Finish(w, clock.complete), Record(w, clock.fail)]
  }

  /** Everything one worker does, in order. Steps that do not apply do nothing. */
  function Alone(s: State, w: nat, faults: Faults, clock: Clock): seq<Event> {
    var entered := Next(s, Enter(w, clock.stage));
    [Enter(w, clock.stage)] + (Uploads(entered, w, faults.put) + Checks(w, faults, clock))
  }

  // ---- The checks

  lemma {:induction false} RunChecks(s: State, w: nat, faults: Faults, clock: Clock)
    ensures Run(s, Checks(w, faults, clock))
            == Next(Next(Next(Next(Next(s, Head(w, faults.get)), Read(w, false)), Cleanup(w, faults.cleanup)),
                         Finish(w, clock.complete)), Record(w, clock.fail))
  {
    hide Next;
    var s1 := Next(s, Head(w, faults.get));
    var s2 := Next(s1, Read(w, false));
    var s3 := Next(s2, Cleanup(w, faults.cleanup));
    var s4 := Next(s3, Finish(w, clock.complete));
    var r3 := [Finish(w, clock.complete), Record(w, clock.fail)];
    var r2 := [Cleanup(w, faults.cleanup)] + r3;
    var r1 := [Read(w, false)] + r2;
    assert Checks(w, faults, clock) == [Head(w, faults.get)] + r1;
    RunOne(s, Head(w, faults.get), r1);
    RunOne(s1, Read(w, false), r2);
    RunOne(s2, Cleanup(w, faults.cleanup), r3);
    assert r3 == [Finish(w, clock.complete)] + [Record(w, clock.fail)];
    RunOne(s3, Finish(w, clock.complete), [Record(w, clock.fail)]);
    assert [Record(w, clock.fail)] + [] == [Record(w, clock.fail)];
    RunOne(s4, Record(w, clock.fail), []);
  }

  predicate Ended(s: State, w: nat) {
    w !in s.workers || s.workers[w].phase.Finished?
  }

  lemma EndedStays(s: State, w: nat, faults: Faults, clock: Clock)
    requires Ended(s, w)
    ensures Run(s, Checks(w, faults, clock)) == s
  {
    RunChecks(s, w, faults, clock);
  }

  /** What the checks of a row amount to, for either job. */
  function Checked(sets: Table, objects: Store, job: Job, row: Row, faults: Faults, clock: Clock): (Table, bool) {
    var h := ArtifactOf(job.p, job.t);
    if faults.get || !StoredExactly(objects, row.file) then (PublicationRecord(sets, h, row, clock), false)
    else if job.PublishJob? && faults.cleanup then (Fail(sets, h, clock.fail).0, false)
    else
      var (after, r) := Complete(sets, job.p, job.t.outputKind, job.t.format, KeyOf(job.p, job.t), clock.complete);
      (after, r == Ok(true))
  }

  function PublicationRecord(sets: Table, h: ArtifactHash, row: Row, clock: Clock): Table {
    RecordFailure(sets, h, RevisionOf(row), clock.fail)
  }

  predicate Is(s: State, w: nat, job: Job, phase: Phase, row: Row) {
    w in s.workers && s.workers[w] == Worker(job, phase, Some(row))
  }

  function To(s: State, w: nat, sets: Table, job: Job, phase: Phase, row: Row): State {
    Moved(s, w, sets, s.objects, s.sent, Worker(job, phase, Some(row)))
  }

  lemma HeadAlone(s: State, w: nat, job: Job, row: Row, fault: bool)
    requires Is(s, w, job, Heading, row)
    ensures Next(s, Head(w, fault))
            == To(s, w, s.sets, job, if !fault && HeadMatches(s.objects, row.file) then Reading else Failing, row)
  {
  }

  lemma ReadAlone(s: State, w: nat, job: Job, row: Row)
    ensures Is(s, w, job, Reading, row) ==>
              Next(s, Read(w, false))
              == To(s, w, s.sets, job, if !StoredExactly(s.objects, row.file) then Failing
                                       else if job.PublishJob? then Cleaning else Completing, row)
    ensures Is(s, w, job, Failing, row) ==> Next(s, Read(w, false)) == s
  {
  }

  lemma CleanupAlone(s: State, w: nat, job: Job, row: Row, fault: bool)
    ensures Is(s, w, job, Cleaning, row) ==>
              Next(s, Cleanup(w, fault)) == To(s, w, s.sets, job, if fault then CleanupFailing else Completing, row)
    ensures Is(s, w, job, Failing, row) || Is(s, w, job, Completing, row) ==> Next(s, Cleanup(w, fault)) == s
  {
  }

  lemma FinishAlone(s: State, w: nat, job: Job, row: Row, now: int)
    ensures Is(s, w, job, Completing, row) ==>
              var (sets, r) := Complete(s.sets, job.p, job.t.outputKind, job.t.format, KeyOf(job.p, job.t), now);
              Next(s, Finish(w, now)) == To(s, w, sets, job, Finished(r == Ok(true)), row)
    ensures Is(s, w, job, Failing, row) || Is(s, w, job, CleanupFailing, row) ==> Next(s, Finish(w, now)) == s
  {
    hide Complete;
  }

  lemma RecordAlone(s: State, w: nat, job: Job, row: Row, now: int)
    ensures Is(s, w, job, Failing, row) ==>
              Next(s, Record(w, now))
              == To(s, w, RecordFailure(s.sets, ArtifactOf(job.p, job.t), RevisionOf(row), now), job, Finished(false), row)
    ensures Is(s, w, job, CleanupFailing, row) ==>
              Next(s, Record(w, now)) == To(s, w, Fail(s.sets, ArtifactOf(job.p, job.t), now).0, job, Finished(false), row)
    ensures forall ok :: Is(s, w, job, Finished(ok), row) ==> Next(s, Record(w, now)) == s
  {
    hide RecordFailure, Fail;
  }

  lemma ToTwice(s: State, w: nat, sets: Table, job: Job, phase: Phase, row: Row, sets2: Table, phase2: Phase)
    ensures To(To(s, w, sets, job, phase, row), w, sets2, job, phase2, row) == To(s, w, sets2, job, phase2, row)
    ensures Is(To(s, w, sets, job, phase, row), w, job, phase, row)
    ensures To(s, w, sets, job, phase, row).sets == sets && To(s, w, sets, job, phase, row).objects == s.objects
  {
    MovedTwice(s, w, sets, s.objects, s.sent, Worker(job, phase, Some(row)), sets2, s.objects, s.sent, Worker(job, phase2, Some(row)));
  }

  lemma FailingEnds(s: State, w: nat, job: Job, row: Row, faults: Faults, clock: Clock)
    requires Is(s, w, job, Failing, row)
    ensures Next(Next(Next(Next(s, Read(w, false)), Cleanup(w, faults.cleanup)), Finish(w, clock.complete)), Record(w, clock.fail))
            == To(s, w, PublicationRecord(s.sets, ArtifactOf(job.p, job.t), row, clock), job, Finished(false), row)
  {
    hide Next, RecordFailure;
    ReadAlone(s, w, job, row);
    CleanupAlone(s, w, job, row, faults.cleanup);
    FinishAlone(s, w, job, row, clock.complete);
    RecordAlone(s, w, job, row, clock.fail);
  }

  lemma CompletingEnds(s: State, w: nat, job: Job, row: Row, clock: Clock)
    requires Is(s, w, job, Completing, row)
    ensures var (sets, r) := Complete(s.sets, job.p, job.t.outputKind, job.t.format, KeyOf(job.p, job.t), clock.complete);
            Next(Next(s, Finish(w, clock.complete)), Record(w, clock.fail)) == To(s, w, sets, job, Finished(r == Ok(true)), row)
  {
    hide Next, Complete, To, Is;
    var (sets, r) := Complete(s.sets, job.p, job.t.outputKind, job.t.format, KeyOf(job.p, job.t), clock.complete);
    FinishAlone(s, w, job, row, clock.complete);
    var s1 := To(s, w, sets, job, Finished(r == Ok(true)), row);
    ToTwice(s, w, sets, job, Finished(r == Ok(true)), row, sets, Finished(r == Ok(true)));
    RecordAlone(s1, w, job, row, clock.fail);
  }

  lemma CleaningEnds(s: State, w: nat, job: Job, row: Row, fault: bool, clock: Clock)
    requires Is(s, w, job, Cleaning, row)
    ensures var (sets, r) := Complete(s.sets, job.p, job.t.outputKind, job.t.format, KeyOf(job.p, job.t), clock.complete);
            Next(Next(Next(s, Cleanup(w, fault)), Finish(w, clock.complete)), Record(w, clock.fail))
            == if fault then To(s, w, Fail(s.sets, ArtifactOf(job.p, job.t), clock.fail).0, job, Finished(false), row)
               else To(s, w, sets, job, Finished(r == Ok(true)), row)
  {
    hide Next, Complete, Fail, To, Is;
    var (sets, r) := Complete(s.sets, job.p, job.t.outputKind, job.t.format, KeyOf(job.p, job.t), clock.complete);
    CleanupAlone(s, w, job, row, fault);
    var next := if fault then CleanupFailing else Completing;
    var s1 := To(s, w, s.sets, job, next, row);
    ToTwice(s, w, s.sets, job, next, row, s.sets, next);
    if fault {
      FinishAlone(s1, w, job, row, clock.complete);
      RecordAlone(s1, w, job, row, clock.fail);
      ToTwice(s, w, s.sets, job, next, row, Fail(s.sets, ArtifactOf(job.p, job.t), clock.fail).0, Finished(false));
    } else {
      CompletingEnds(s1, w, job, row, clock);
      ToTwice(s, w, s.sets, job, next, row, sets, Finished(r == Ok(true)));
    }
  }

  /** From the verification on, a worker alone ends as the functions say. */
  lemma HeadingEnds(s: State, w: nat, job: Job, row: Row, faults: Faults, clock: Clock)
    requires Is(s, w, job, Heading, row)
    ensures var (sets, ok) := Checked(s.sets, s.objects, job, row, faults, clock);
            Run(s, Checks(w, faults, clock)) == To(s, w, sets, job, Finished(ok), row)
  {
    hide Next, Complete, Fail, RecordFailure, To, Is, HeadMatches, StoredExactly;
    RunChecks(s, w, faults, clock);
    HeadAlone(s, w, job, row, faults.get);
    ExactMatchesHead(s.objects, row.file);
    var passed := !faults.get && HeadMatches(s.objects, row.file);
    var s1 := To(s, w, s.sets, job, if passed then Reading else Failing, row);
    ToTwice(s, w, s.sets, job, if passed then Reading else Failing, row, s.sets, Failing);
    if !passed {
      FailingEnds(s1, w, job, row, faults, clock);
      ToTwice(s, w, s.sets, job, Failing, row, PublicationRecord(s.sets, ArtifactOf(job.p, job.t), row, clock), Finished(false));
    } else {
      ReadingEnds(s, s1, w, job, row, faults, clock);
    }
  }

  lemma ExactMatchesHead(objects: Store, file: FileRow)
    ensures StoredExactly(objects, file) ==> HeadMatches(objects, file)
  {
  }

  lemma ReadingEnds(s: State, s1: State, w: nat, job: Job, row: Row, faults: Faults, clock: Clock)
    requires s1 == To(s, w, s.sets, job, Reading, row) && !faults.get
    ensures var (sets, ok) := Checked(s.sets, s.objects, job, row, faults, clock);
            Next(Next(Next(Next(s1, Read(w, false)), Cleanup(w, faults.cleanup)), Finish(w, clock.complete)), Record(w, clock.fail))
            == To(s, w, sets, job, Finished(ok), row)
  {
    hide Next, Complete, Fail, RecordFailure, To, Is, HeadMatches, StoredExactly;
    ToTwice(s, w, s.sets, job, Reading, row, s.sets, Reading);
    ReadAlone(s1, w, job, row);
    var exact := StoredExactly(s.objects, row.file);
    var next := if !exact then Failing else if job.PublishJob? then Cleaning else Completing;
    var s2 := To(s, w, s.sets, job, next, row);
    ToTwice(s, w, s.sets, job, Reading, row, s.sets, next);
    assert Next(s1, Read(w, false)) == s2;
    ToTwice(s, w, s.sets, job, next, row, s.sets, next);
    var (sets, ok) := Checked(s.sets, s.objects, job, row, faults, clock);
    ToTwice(s, w, s.sets, job, next, row, sets, Finished(ok));
    CleanupAlone(s2, w, job, row, faults.cleanup);
    if !exact {
      FinishAlone(s2, w, job, row, clock.complete);
      RecordAlone(s2, w, job, row, clock.fail);
    } else if job.PublishJob? {
      CleaningEnds(s2, w, job, row, faults.cleanup, clock);
    } else {
      CompletingEnds(s2, w, job, row, clock);
    }
  }

  // ---- Entering and uploading

  predicate Starts(s: State, w: nat, job: Job) {
    w in s.workers && s.workers[w] == Worker(job, Begin, None)
  }

  lemma EnterAlone(s: State, w: nat, job: Job, now: int)
    requires Starts(s, w, job)
    ensures var (sets, row) := Admit(s.sets, job, now);
            Next(s, Enter(w, now))
            == Moved(s, w, sets, s.objects, s.sent,
                     Worker(job, if row.None? then Finished(false)
                                 else if job.PublishJob? && !row.value.status.Ready? then Sending else Heading, row))
  {
    hide Admit;
  }

  lemma NoUpload(s: State, w: nat, fault: PutFault)
    requires w in s.workers ==> !s.workers[w].phase.Sending?
    ensures Uploads(s, w, fault) == []
  {
  }

  /** After the upload a worker alone verifies, or fails if no reply came. */
  lemma UploadAlone(s: State, w: nat, job: Job, row: Row, fault: PutFault)
    requires Is(s, w, job, Sending, row) && job.PublishJob? && !row.status.Ready?
    ensures var after, key := Run(s, Uploads(s, w, fault)), KeyOf(job.p, job.t);
            after == Moved(s, w, s.sets, Uploaded(s.objects, row, key, Object(job.p.mediaType, job.output.bytes), fault),
                           after.sent, Worker(job, if fault.NoFault? then Heading else Failing, Some(row)))
  {
    hide KeyOf;
    var put := Put(KeyOf(job.p, job.t), Object(job.p.mediaType, job.output.bytes));
    var s1 := Next(s, Send(w));
    assert s1 == Moved(s, w, s.sets, s.objects, s.sent + {put}, Worker(job, Waiting, Some(row)));
    if fault.LostRequest? {
      assert Uploads(s, w, fault) == [Send(w)] + ([Ack(w, false)] + []);
      RunOne(s, Send(w), [Ack(w, false)] + []);
      RunOne(s1, Ack(w, false), []);
      Replied(s, s1, w, s.objects, put, job, row, false);
    } else {
      var ack := Ack(w, fault.NoFault?);
      assert Uploads(s, w, fault) == [Send(w)] + ([Land(put)] + ([ack] + []));
      RunOne(s, Send(w), [Land(put)] + ([ack] + []));
      RunOne(s1, Land(put), [ack] + []);
      var s2 := Next(s1, Land(put));
      assert s2 == Moved(s, w, s.sets, s.objects[put.key := put.body], s.sent + {put}, Worker(job, Waiting, Some(row)));
      RunOne(s2, ack, []);
      Replied(s, s2, w, s.objects[put.key := put.body], put, job, row, fault.NoFault?);
    }
  }

  lemma Replied(s: State, waiting: State, w: nat, objects: Store, put: Put, job: Job, row: Row, ok: bool)
    requires waiting == Moved(s, w, s.sets, objects, s.sent + {put}, Worker(job, Waiting, Some(row)))
    ensures Next(waiting, Ack(w, ok))
            == Moved(s, w, s.sets, objects, s.sent + {put}, Worker(job, if ok then Heading else Failing, Some(row)))
  {
    MovedTwice(s, w, s.sets, objects, s.sent + {put}, Worker(job, Waiting, Some(row)),
               s.sets, objects, s.sent + {put}, Worker(job, if ok then Heading else Failing, Some(row)));
  }

  // ---- The whole worker

  /** What is left of a state when worker `w` has ended. */
  predicate EndsAs(s: State, after: State, w: nat, job: Job, sets: Table, objects: Store, ok: bool) {
    && after.sets == sets && after.objects == objects
    && w in after.workers && after.workers[w].job == job && after.workers[w].phase == Finished(ok)
    && after.workers == s.workers[w := after.workers[w]]
  }

  lemma FailedUploadEnds(s: State, w: nat, job: Job, row: Row, faults: Faults, clock: Clock)
    requires Is(s, w, job, Failing, row)
    ensures Run(s, Checks(w, faults, clock))
            == To(s, w, PublicationRecord(s.sets, ArtifactOf(job.p, job.t), row, clock), job, Finished(false), row)
  {
    hide RecordFailure, To;
    RunChecks(s, w, faults, clock);
    assert Next(s, Head(w, faults.get)) == s;
    hide Next;
    FailingEnds(s, w, job, row, faults, clock);
  }

  /** The checks after an upload, in terms of the publication function. */
  lemma {:induction false} UploadedEnds(s: State, w: nat, job: Job, row: Row, faults: Faults, clock: Clock)
    requires Is(s, w, job, Sending, row) && job.PublishJob? && !row.status.Ready?
    ensures var stored := Uploaded(s.objects, row, KeyOf(job.p, job.t), Object(job.p.mediaType, job.output.bytes), faults.put);
            var (sets, ok) := if faults.put.NoFault? then Checked(s.sets, stored, job, row, faults, clock)
                              else (PublicationRecord(s.sets, ArtifactOf(job.p, job.t), row, clock), false);
            EndsAs(s, Run(Run(s, Uploads(s, w, faults.put)), Checks(w, faults, clock)), w, job, sets, stored, ok)
  {
    hide Run, Next, Checked, PublicationRecord, Uploaded, Uploads, KeyOf, ArtifactOf;
    UploadAlone(s, w, job, row, faults.put);
    var s1 := Run(s, Uploads(s, w, faults.put));
    if faults.put.NoFault? {
      HeadingEnds(s1, w, job, row, faults, clock);
    } else {
      FailedUploadEnds(s1, w, job, row, faults, clock);
    }
  }

  /** The steps of a worker alone, cut at the end of its upload. */
  lemma AloneInParts(s: State, w: nat, job: Job, faults: Faults, clock: Clock)
    requires Starts(s, w, job)
    ensures var s1 := Next(s, Enter(w, clock.stage));
            Run(s, Alone(s, w, faults, clock)) == Run(Run(s1, Uploads(s1, w, faults.put)), Checks(w, faults, clock))
  {
    hide Next, Run, Uploads, Checks;
    var s1 := Next(s, Enter(w, clock.stage));
    var uploads, checks := Uploads(s1, w, faults.put), Checks(w, faults, clock);
    RunOne(s, Enter(w, clock.stage), uploads + checks);
    RunAppend(s1, uploads, checks);
  }

  lemma {:induction false} EnteredPublishes(s: State, s1: State, w: nat, job: Job, staged: Table, row: Option<Row>, faults: Faults, clock: Clock)
    requires job.PublishJob?
    requires s1 == Moved(s, w, staged, s.objects, s.sent,
                         Worker(job, if row.None? then Finished(false)
                                     else if !row.value.status.Ready? then Sending else Heading, row))
    ensures var stored := if row.None? then s.objects
                          else Uploaded(s.objects, row.value, KeyOf(job.p, job.t), Object(job.p.mediaType, job.output.bytes), faults.put);
            var (sets, ok) := if row.None? then (staged, false)
                              else if row.value.status.Ready? || faults.put.NoFault? then Checked(staged, stored, job, row.value, faults, clock)
                              else (PublicationRecord(staged, ArtifactOf(job.p, job.t), row.value, clock), false);
            EndsAs(s, Run(Run(s1, Uploads(s1, w, faults.put)), Checks(w, faults, clock)), w, job, sets, stored, ok)
  {
    hide Run, Next, Checked, PublicationRecord, Checks, KeyOf, ArtifactOf;
    if row.None? {
      NoUpload(s1, w, faults.put);
      RunEmpty(s1);
      EndedStays(s1, w, faults, clock);
    } else if row.value.status.Ready? {
      NoUpload(s1, w, faults.put);
      RunEmpty(s1);
      HeadingEnds(s1, w, job, row.value, faults, clock);
    } else {
      UploadedEnds(s1, w, job, row.value, faults, clock);
    }
  }

  /** A publishing worker alone has the effect of `Publish`, failures included. */
  lemma {:induction false} PublishesAlone(s: State, w: nat, p: Recipe, t: Target, output: Output, faults: Faults, clock: Clock)
    requires Starts(s, w, PublishJob(p, t, output)) && !faults.retain
    ensures var (sets, objects, r) := Publish(s.sets, s.objects, p, t, output, faults, clock);
            EndsAs(s, Run(s, Alone(s, w, faults, clock)), w, PublishJob(p, t, output), sets, objects, r.Ok?)
  {
    hide Run, Next, Admit, Publish, Checked, PublicationRecord, Uploaded, Uploads, Checks, Alone, EndsAs, KeyOf, ArtifactOf;
    var job := PublishJob(p, t, output);
    var (staged, row) := Admit(s.sets, job, clock.stage);
    EnterAlone(s, w, job, clock.stage);
    AloneInParts(s, w, job, faults, clock);
    EnteredPublishes(s, Next(s, Enter(w, clock.stage)), w, job, staged, row, faults, clock);
    PublishMeans(s.sets, s.objects, p, t, output, faults, clock);
  }

  lemma RunEmpty(s: State)
    ensures Run(s, []) == s
  {
  }

  lemma StagedCarriesFile(sets: Table, p: Recipe, a: StageRequest, file: FileRow, now: int)
    ensures var r := StageOrResume(sets, p, a, [file], now).1; r.Ok? ==> r.value.file == file
  {
    StageExact(sets, p, a, [file], now);
  }

  /** `Publish` in the terms of the machine. */
  lemma PublishMeans(sets: Table, objects: Store, p: Recipe, t: Target, output: Output, faults: Faults, clock: Clock)
    requires !faults.retain
    ensures var job := PublishJob(p, t, output);
            var (staged, row) := Admit(sets, job, clock.stage);
            var (after, stored, r) := Publish(sets, objects, p, t, output, faults, clock);
            if row.None? then after == staged && stored == objects && r.Err?
            else
              && stored == Uploaded(objects, row.value, KeyOf(p, t), Object(p.mediaType, output.bytes), faults.put)
              && (after, r.Ok?) == if row.value.status.Ready? || faults.put.NoFault? then Checked(staged, stored, job, row.value, faults, clock)
                                   else (PublicationRecord(staged, ArtifactOf(p, t), row.value, clock), false)
  {
    hide StageOrResume, Complete, RecordFailure, Fail, StoredExactly, ValidDeployment, Sealed, FileOf, KeyOf, StageRequestOf;
    var file := FileOf(p, t, output.result);
    StageConflictRollsBack(sets, p, StageRequestOf(p, t, output.result), [file], clock.stage);
    StagedCarriesFile(sets, p, StageRequestOf(p, t, output.result), file, clock.stage);
  }

  /** A reconciling worker alone has the effect of `Reconcile`. */
  lemma {:induction false} ReconcilesAlone(s: State, w: nat, p: Recipe, t: Target, faults: Faults, clock: Clock)
    requires Starts(s, w, ReconcileJob(p, t))
    ensures var (sets, r) := Reconcile(s.sets, s.objects, p, t, faults.get, clock);
            EndsAs(s, Run(s, Alone(s, w, faults, clock)), w, ReconcileJob(p, t), sets, s.objects, r.Ok? && r.value.Some?)
  {
    var job := ReconcileJob(p, t);
    var (sets, row) := Admit(s.sets, job, clock.stage);
    var s1 := Next(s, Enter(w, clock.stage));
    EnterAlone(s, w, job, clock.stage);
    var checks := Checks(w, faults, clock);
    NoUpload(s1, w, faults.put);
    RunOne(s, Enter(w, clock.stage), Uploads(s1, w, faults.put) + checks);
    assert [] + checks == checks;
    ReconcileMeans(s.sets, s.objects, p, t, faults, clock);
    hide Run, Next, Admit, Reconcile, Checked, Checks;
    if row.None? {
      EndedStays(s1, w, faults, clock);
    } else {
      HeadingEnds(s1, w, job, row.value, faults, clock);
    }
  }

  lemma ReconcileMeans(sets: Table, objects: Store, p: Recipe, t: Target, faults: Faults, clock: Clock)
    ensures var job := ReconcileJob(p, t);
            var (loaded, row) := Admit(sets, job, clock.stage);
            var (after, r) := Reconcile(sets, objects, p, t, faults.get, clock);
            && loaded == sets
            && (after, r.Ok? && r.value.Some?) == if row.None? then (sets, false)
                                                  else Checked(sets, objects, job, row.value, faults, clock)
  {
    hide Complete, RecordFailure, StoredExactly, ValidDeployment, DeclarationMatches, Load;
  }
}
