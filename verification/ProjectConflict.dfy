/** What really locks a bound request out, and what would if the remote repeated an id:
    two concrete runs of two requests that differ only in policy. */
module ProjectConflict {
  import opened Core
  import opened Artifacts
  import opened Publication
  import opened ProjectProtocol
  import opened ProjectSafety
  import opened ProjectOrigins
  import opened ProjectRecovery
  import PP = PublicationProtocol
  import PR = PublicationRuns
  import Documents
  import Processing
  import Recovery
  import PublicationSafety

  ghost function Last(d: Deployment, es: seq<Event>): State {
    At(d, es, |es|)
  }

  lemma Then(d: Deployment, es: seq<Event>, e: Event) returns (longer: seq<Event>)
    ensures longer == es + [e] && Last(d, longer) == Next(d, Last(d, es), e)
  {
    hide Next;
    longer := es + [e];
    PrefixRuns(d, es, [e], |es|);
  }

  // ---- Fresh translations, read off the list of events

  predicate Asks(e: Event) {
    e.Act? && e.action.Acquire?
  }

  /** No two acquisitions listed share a translation id, and all ids are among `used`. */
  predicate Once(es: seq<Event>, used: set<string>) {
    && (forall j, k :: 0 <= j < k < |es| && Asks(es[j]) && Asks(es[k]) ==>
          TranslationsOf(es[j].action.p) !! TranslationsOf(es[k].action.p))
    && (forall k :: 0 <= k < |es| && Asks(es[k]) ==> TranslationsOf(es[k].action.p) <= used)
  }

  lemma OnceIsFresh(d: Deployment, es: seq<Event>, used: set<string>)
    requires Once(es, used)
    ensures FreshTranslations(d, es)
  {
    hide At, PreparedFor;
  }

  lemma OnceMore(es: seq<Event>, more: seq<Event>, used: set<string>)
    requires Once(es, used) && forall e :: e in more ==> !Asks(e)
    ensures Once(es + more, used)
  {
    hide TranslationsOf;
    var all := es + more;
    assert forall k :: |es| <= k < |all| ==> all[k] in more;
    assert forall k :: 0 <= k < |es| ==> all[k] == es[k];
  }

  lemma OnceAgain(es: seq<Event>, e: Event, used: set<string>)
    requires Once(es, used) && Asks(e) && TranslationsOf(e.action.p) !! used
    ensures Once(es + [e], used + TranslationsOf(e.action.p))
  {
    hide TranslationsOf;
  }

  // ---- A request on its own

  /** What an unopposed execution can start from. */
  predicate Free(s: State, x: nat, r: Request) {
    x !in s.execs && RequestId(r) !in s.requests
  }

  ghost predicate MayAccept(d: Deployment, r: Request, p: Recipe, output: Output) {
    PreparedFor(d, r, p) && Sealed(p, output)
  }

  /** A fresh request runs unopposed up to being bound. */
  lemma RunsToBinding(d: Deployment, es: seq<Event>, x: nat, r: Request, p: Recipe, output: Output) returns (longer: seq<Event>)
    requires Free(Last(d, es), x, r) && MayAccept(d, r, p, output)
    ensures var before, after := Last(d, es), Last(d, longer);
            && after.pub == before.pub
            && IsBound(after, r) && after.requests[RequestId(r)].processing == Some(ProcessingHash(p))
            && (forall id :: id in before.requests ==> id in after.requests && after.requests[id] == before.requests[id])
            && after.requests.Keys == before.requests.Keys + {RequestId(r)} && after.execs.Keys == before.execs.Keys + {x}
            && after.execs[x] == Execution(r, Publishing(p, output))
    ensures forall used :: Once(es, used) && TranslationsOf(p) !! used ==> Once(longer, used + TranslationsOf(p))
  {
    hide Last, Sealed, PreparedFor, TargetOf, StoredRecipe, Once, TranslationsOf;
    var es1 := Then(d, es, Enqueue(r));
    var es2 := Then(d, es1, Start(x, r));
    var es3 := Then(d, es2, Act(x, ReadRow));
    assert Last(d, es3).execs[x] == Execution(r, Acquiring);
    var es4 := Then(d, es3, Act(x, Acquire(p, output, true)));
    assert Last(d, es4).execs[x] == Execution(r, Accepted(p, output));
    longer := AcceptedRunsToBinding(d, es4, x, r, p, output);
    forall used | Once(es, used) && TranslationsOf(p) !! used ensures Once(longer, used + TranslationsOf(p)) {
      OnceMore(es, [Enqueue(r)], used);
      OnceMore(es1, [Start(x, r)], used);
      OnceMore(es2, [Act(x, ReadRow)], used);
      OnceAgain(es3, Act(x, Acquire(p, output, true)), used);
      OnceMore(es4, [Act(x, Persist(true)), Act(x, Bind)], used + TranslationsOf(p));
    }
  }

  lemma AcceptedRunsToBinding(d: Deployment, es: seq<Event>, x: nat, r: Request, p: Recipe, output: Output) returns (longer: seq<Event>)
    requires var s := Last(d, es);
             && x in s.execs && s.execs[x] == Execution(r, Accepted(p, output))
             && RequestId(r) in s.requests && s.requests[RequestId(r)] == RequestRow(r, None, None)
    requires Sealed(p, output)
    ensures longer == es + [Act(x, Persist(true)), Act(x, Bind)]
    ensures var before, after := Last(d, es), Last(d, longer);
            && after.pub == before.pub && after.execs.Keys == before.execs.Keys
            && after.requests == before.requests[RequestId(r) := RequestRow(r, Some(ProcessingHash(p)), Some(SnapshotOf(output)))]
            && after.execs[x] == Execution(r, Publishing(p, output))
  {
    hide Last, Sealed;
    var es1 := Then(d, es, Act(x, Persist(true)));
    assert Last(d, es1).execs[x] == Execution(r, Persisted(p, output));
    longer := Then(d, es1, Act(x, Bind));
  }

  const CLOCK := Clock(0, 0, 0)

  lemma StartsPublishing(d: Deployment, es: seq<Event>, x: nat, r: Request, p: Recipe, output: Output, w: nat) returns (longer: seq<Event>)
    requires var s := Last(d, es);
             x in s.execs && s.execs[x] == Execution(r, Publishing(p, output)) && w !in s.pub.workers
    ensures longer == es + [Act(x, StartPublication(w))]
    ensures var s, after := Last(d, es), Last(d, longer);
            && after.requests == s.requests && after.execs.Keys == s.execs.Keys
            && after.pub == s.pub.(workers := s.pub.workers[w := PP.Worker(PP.PublishJob(p, TargetOf(d, r), output), PP.Begin, None)])
  {
    hide Last, TargetOf;
    longer := Then(d, es, Act(x, StartPublication(w)));
  }

  /** A bound execution publishes unopposed. */
  lemma {:induction false} PublishesBound(d: Deployment, es: seq<Event>, x: nat, r: Request, p: Recipe, output: Output, w: nat)
    returns (longer: seq<Event>)
    requires var s := Last(d, es);
             x in s.execs && s.execs[x] == Execution(r, Publishing(p, output)) && w !in s.pub.workers
    ensures var before, after := Last(d, es), Last(d, longer);
            && after.requests == before.requests && after.execs.Keys == before.execs.Keys
            && after.pub.workers.Keys == before.pub.workers.Keys + {w}
            && (after.pub.sets, after.pub.objects)
               == (Publish(before.pub.sets, before.pub.objects, p, TargetOf(d, r), output, NO_FAULTS, CLOCK).0,
                   Publish(before.pub.sets, before.pub.objects, p, TargetOf(d, r), output, NO_FAULTS, CLOCK).1)
    ensures forall used :: Once(es, used) ==> Once(longer, used)
  {
    hide Publish, Run, Once, TargetOf, PR.Run, PR.Alone, Next, Lift;
    var es1 := StartsPublishing(d, es, x, r, p, output, w);
    var s1 := Last(d, es1);
    var alone := PR.Alone(s1.pub, w, NO_FAULTS, CLOCK);
    PR.PublishesAlone(s1.pub, w, p, TargetOf(d, r), output, NO_FAULTS, CLOCK);
    longer := es1 + Lift(alone);
    RunContinues(d, es1, Lift(alone));
    AloneSpawnsNothing(s1.pub, w, CLOCK);
    LiftedRun(d, s1, alone);
    LiftAsksNothing(alone);
    forall used | Once(es, used) ensures Once(longer, used) {
      OnceMore(es, [Act(x, StartPublication(w))], used);
      OnceMore(es1, Lift(alone), used);
    }
  }

  lemma LiftAsksNothing(es: seq<PP.Event>)
    ensures forall e :: e in Lift(es) ==> !Asks(e)
  {
  }

  // ---- Two requests

  const READER := Processing.Json(_ => true, x => x, _ => 0)
  const WHERE := Deployment(Processing.DEPLOYED, READER, "t", 1)
  const FIRST := Request("s", "a", "b", "v", "1")
  const SECOND := Request("s", "a", "b", "v", "2")

  /** The recipe that one translation gives rise to, and its output. */
  function Made(translation: string): Recipe {
    RecipeOf(Processing.Example(READER, translation))
  }

  function Sealing(p: Recipe): Output {
    Output(ProcessingHash(p), InvocationOf(p), ResultDoc(true, "t", 1, Sha256([7]), ""), [7])
  }

  lemma MadeIsAccepted(r: Request, translation: string)
    requires r.source == "a"
    ensures MayAccept(WHERE, r, Made(translation), Sealing(Made(translation)))
  {
    hide Processing.Prepare;
    Processing.SomethingPrepares(READER, translation);
    assert Yields(WHERE, Processing.ASKED, Processing.ManifestOf(translation), Processing.CHOSEN,
                  [Documents.Expected("o", Documents.RawGeometry, Processing.UNIT)], Processing.PROTOCOL,
                  Processing.Example(READER, translation));
  }

  lemma TranslationOfMade(translation: string)
    ensures TranslationsOf(Made(translation)) == {translation}
  {
    var m := Made(translation).document.manifest;
    assert m.objects == [Processing.Part(translation)];
    assert forall x :: x in TranslationsOf(Made(translation)) <==> x == translation by {
      assert Processing.Part(translation) in m.objects;
    }
  }

  lemma NameIsSafe()
    ensures SafeSegment("s" + "-bambu-project.3mf") && SafeSegment("s")
  {
    assert "s" + "-bambu-project.3mf" == "s-bambu-project.3mf";
  }

  lemma TargetsAreValid(translation: string)
    ensures ValidDeployment(Made(translation), TargetOf(WHERE, FIRST)) && ValidDeployment(Made(translation), TargetOf(WHERE, SECOND))
  {
    hide SafeSegment;
    NameIsSafe();
  }

  /** In a run whose recipes come from two translations, the first request's artifact was
      ready, the second completed for the same output, and the first is locked out: its
      row is superseded by the other, so no recovery of it succeeds. */
  lemma {:induction false} CompletingRivalLocksOut() returns (es: seq<Event>)
    ensures FreshTranslations(WHERE, es) && AcquiresReadable(WHERE, es)
    ensures var s, h := Last(WHERE, es), ArtifactOf(Made("1"), TargetOf(WHERE, FIRST));
            && IsBound(s, FIRST) && s.requests[RequestId(FIRST)].processing == Some(ProcessingHash(Made("1")))
            && h in s.pub.sets && s.pub.sets[h].supersededBy == Some(ArtifactOf(Made("2"), TargetOf(WHERE, SECOND)))
            && s.requests[RequestId(FIRST)].snapshot.value in s.snapshots
            && forall objects: Store, first: Clock, second: Clock :: !RecoverRequest(WHERE, s, FIRST, objects, first, second).2
  {
    hide Last, Publish, TargetOf, Made, Sealing, ValidDeployment, ArtifactOf, RecoverRequest, FreshTranslations, AcquiresReadable, MayAccept;
    es := FirstIsReady();
    es := SecondCompletes(es);
    EverythingIsReadable(es);
    var s := Last(WHERE, es);
    LastIsAt(es);
    RunKeepsInv(WHERE, es, |es|);
    RetainedIsSealed(WHERE, s, FIRST, Made("1"));
    forall objects: Store, first: Clock, second: Clock ensures !RecoverRequest(WHERE, s, FIRST, objects, first, second).2 {
      RecoveryIsExact(WHERE, es, |es|, FIRST, Made("1"), objects, first, second);
    }
  }

  lemma LastIsAt(es: seq<Event>)
    ensures Last(WHERE, es) == At(WHERE, es, |es|)
  {
  }

  lemma EverythingIsReadable(es: seq<Event>)
    ensures AcquiresReadable(WHERE, es)
  {
    hide At, PreparedFor, Sealed, Readable;
    forall k | 0 <= k < |es| && Acquired(WHERE, At(WHERE, es, k), es[k]) ensures Readable(WHERE, es[k].action.p.document) {
      ExactReadersRead(es[k].action.p.document);
    }
  }

  lemma ExactReadersRead(document: Documents.Recipe)
    ensures Readable(WHERE, document)
  {
    Processing.ExactNumbersSurvive(READER, document);
  }

  lemma {:induction false} FirstIsReady() returns (es: seq<Event>)
    ensures Once(es, {"1"})
    ensures var s, h := Last(WHERE, es), ArtifactOf(Made("1"), TargetOf(WHERE, FIRST));
            && s.requests.Keys == {RequestId(FIRST)} && s.execs.Keys == {0} && s.pub.workers.Keys == {0}
            && IsBound(s, FIRST) && s.requests[RequestId(FIRST)].processing == Some(ProcessingHash(Made("1")))
            && h in s.pub.sets && s.pub.sets[h].status.Ready? && s.pub.sets[h].presentation == TargetOf(WHERE, FIRST).presentation
  {
    hide Last, Publish, TargetOf, Made, Sealing, ValidDeployment, ArtifactOf, Once, TranslationsOf, MayAccept, RecipeOf, Sealed;
    MadeIsAccepted(FIRST, "1");
    TranslationOfMade("1");
    StartsEmpty();
    var p, output := Made("1"), Sealing(Made("1"));
    var es1 := RunsToBinding(WHERE, [], 0, FIRST, p, output);
    assert {} + TranslationsOf(p) == {"1"};
    es := PublishesBound(WHERE, es1, 0, FIRST, p, output, 0);
    TargetsAreValid("1");
    AcceptedIsSealed(FIRST, p, output);
    PublishesOnEmpty(p, TargetOf(WHERE, FIRST), output);
  }

  lemma AcceptedIsSealed(r: Request, p: Recipe, output: Output)
    requires MayAccept(WHERE, r, p, output)
    ensures Sealed(p, output)
  {
  }

  lemma PublishesOnEmpty(p: Recipe, t: Target, output: Output)
    requires ValidDeployment(p, t) && Sealed(p, output)
    ensures var sets := Publish(map[], map[], p, t, output, NO_FAULTS, CLOCK).0;
            ArtifactOf(p, t) in sets && sets[ArtifactOf(p, t)].status.Ready? && sets[ArtifactOf(p, t)].presentation == t.presentation
  {
    hide Publish, ValidDeployment, Sealed;
    Recovery.PublishExact(map[], map[], p, t, output, NO_FAULTS, CLOCK);
    EmptyIsPublishable(p, t, output);
  }

  lemma StartsEmpty()
    ensures Last(WHERE, []) == INIT && Once([], {})
  {
  }

  lemma EmptyIsPublishable(p: Recipe, t: Target, output: Output)
    requires ValidDeployment(p, t) && Sealed(p, output)
    ensures Publishable(map[], p, t, output) && !Recovery.DamagedReady(map[], map[], ArtifactOf(p, t))
  {
  }

  lemma {:induction false} SecondCompletes(es: seq<Event>) returns (longer: seq<Event>)
    requires Once(es, {"1"})
    requires var s, h := Last(WHERE, es), ArtifactOf(Made("1"), TargetOf(WHERE, FIRST));
             && s.requests.Keys == {RequestId(FIRST)} && s.execs.Keys == {0} && s.pub.workers.Keys == {0}
             && IsBound(s, FIRST) && s.requests[RequestId(FIRST)].processing == Some(ProcessingHash(Made("1")))
             && h in s.pub.sets && s.pub.sets[h].status.Ready?
    ensures FreshTranslations(WHERE, longer)
    ensures var s, h := Last(WHERE, longer), ArtifactOf(Made("1"), TargetOf(WHERE, FIRST));
            && IsBound(s, FIRST) && s.requests[RequestId(FIRST)].processing == Some(ProcessingHash(Made("1")))
            && h in s.pub.sets && s.pub.sets[h].status.Superseded?
            && s.pub.sets[h].supersededBy == Some(ArtifactOf(Made("2"), TargetOf(WHERE, SECOND)))
  {
    hide Last, Publish, TargetOf, Made, Sealing, ValidDeployment, ArtifactOf, Once, TranslationsOf, FreshTranslations, MayAccept, Inv, RecipeOf;
    MadeIsAccepted(SECOND, "2");
    TranslationOfMade("2");
    var p, output := Made("2"), Sealing(Made("2"));
    var es1 := RunsToBinding(WHERE, es, 1, SECOND, p, output);
    assert {"1"} + TranslationsOf(p) == {"1", "2"};
    longer := PublishesBound(WHERE, es1, 1, SECOND, p, output, 1);
    OnceIsFresh(WHERE, longer, {"1", "2"});
    LastIsAt(es);
    RunKeepsInv(WHERE, es, |es|);
    SecondRetiresFirst(Last(WHERE, es));
  }

  lemma MadeDiffers()
    ensures Made("1") != Made("2")
  {
    TranslationOfMade("1");
    TranslationOfMade("2");
  }

  lemma {:induction false} SecondRetiresFirst(s: State)
    requires Inv(WHERE, s) && s.requests.Keys == {RequestId(FIRST)}
    requires IsBound(s, FIRST) && s.requests[RequestId(FIRST)].processing == Some(ProcessingHash(Made("1")))
    requires var h := ArtifactOf(Made("1"), TargetOf(WHERE, FIRST)); h in s.pub.sets && s.pub.sets[h].status.Ready?
    ensures var p, t, h := Made("2"), TargetOf(WHERE, SECOND), ArtifactOf(Made("1"), TargetOf(WHERE, FIRST));
            var after := Publish(s.pub.sets, s.pub.objects, p, t, Sealing(p), NO_FAULTS, CLOCK).0;
            h in after && after[h].status.Superseded? && after[h].supersededBy == Some(ArtifactOf(p, t))
  {
    hide Publish, TargetOf, Made, Sealing, ValidDeployment, ArtifactOf, Sealed, Inv, Publishable, MayAccept;
    var p, t, output, h := Made("2"), TargetOf(WHERE, SECOND), Sealing(Made("2")), ArtifactOf(Made("1"), TargetOf(WHERE, FIRST));
    TargetsAreValid("2");
    MadeIsAccepted(SECOND, "2");
    AcceptedIsSealed(SECOND, p, output);
    MadeDiffers();
    SecondIsPublishable(WHERE, s, SECOND, p, output, FIRST, Made("1"));
    Recovery.PublishExact(s.pub.sets, s.pub.objects, p, t, output, NO_FAULTS, CLOCK);
    OutputsCompete(s);
    Recovery.PublishRetiresRivals(s.pub.sets, s.pub.objects, p, t, output, NO_FAULTS, CLOCK, h);
  }

  /** Every row is the artifact of a bound recipe. */
  lemma RowsAreOfBoundRecipes(d: Deployment, s: State, other: Request, q: Recipe, h: ArtifactHash)
    requires Inv(d, s) && s.requests.Keys == {RequestId(other)}
    requires IsBound(s, other) && s.requests[RequestId(other)].processing == Some(ProcessingHash(q)) && h in s.pub.sets
    ensures h.processing == ProcessingHash(q)
  {
    hide RequestsOk, SnapshotsOk, ExecsOk, JobsOk, PublicationSafety.Inv;
    var bound :| RowFor(d, s, bound, h, s.pub.sets[h]);
    assert RequestId(bound) in s.requests.Keys;
  }

  lemma SecondIsPublishable(d: Deployment, s: State, r: Request, p: Recipe, output: Output, other: Request, q: Recipe)
    requires Inv(d, s) && ValidDeployment(p, TargetOf(d, r)) && Sealed(p, output) && s.requests.Keys == {RequestId(other)}
    requires IsBound(s, other) && s.requests[RequestId(other)].processing == Some(ProcessingHash(q)) && p != q
    ensures ArtifactOf(p, TargetOf(d, r)) !in s.pub.sets
    ensures Publishable(s.pub.sets, p, TargetOf(d, r), output)
            && !Recovery.DamagedReady(s.pub.sets, s.pub.objects, ArtifactOf(p, TargetOf(d, r)))
  {
    hide Inv, ValidDeployment, Sealed, KeyTaken;
    var h := ArtifactOf(p, TargetOf(d, r));
    if h in s.pub.sets {
      RowsAreOfBoundRecipes(d, s, other, q, h);
    } else {
      RowsAreOk(d, s);
      KeyIsFree(s, p, TargetOf(d, r));
    }
  }

  lemma OutputsCompete(s: State)
    requires Inv(WHERE, s) && ArtifactOf(Made("1"), TargetOf(WHERE, FIRST)) in s.pub.sets
    ensures var row, h := s.pub.sets[ArtifactOf(Made("1"), TargetOf(WHERE, FIRST))], ArtifactOf(Made("2"), TargetOf(WHERE, SECOND));
            row.source == h.source && row.config == h.config && row.options == h.options && row.outputKind == h.outputKind
  {
    hide RequestsOk, SnapshotsOk, ExecsOk, JobsOk, RowsDeclared, PublicationSafety.WorkersOk, PublicationSafety.SentOk;
    assert PP.RowOk(ArtifactOf(Made("1"), TargetOf(WHERE, FIRST)), s.pub.sets[ArtifactOf(Made("1"), TargetOf(WHERE, FIRST))]);
  }

  /** If the remote did repeat a translation id, two requests could be bound to one
      recipe, and the second would find the row declared by the first: the hypothesis of
      fresh ids is needed. */
  lemma {:induction false} RepeatedIdWouldLockOut() returns (es: seq<Event>)
    ensures !FreshTranslations(WHERE, es)
    ensures var s, h := Last(WHERE, es), ArtifactOf(Made("1"), TargetOf(WHERE, SECOND));
            && IsBound(s, SECOND) && s.requests[RequestId(SECOND)].processing == Some(ProcessingHash(Made("1")))
            && Unsuperseded(s.pub.sets, h) && !OwnsArtifact(s.pub.sets, h, SECOND)
  {
    hide Last, Publish, Made, Sealing, ValidDeployment, Once, TranslationsOf, MayAccept, FreshTranslations;
    var es1 := FirstIsReady();
    MadeIsAccepted(SECOND, "1");
    es := RunsToBinding(WHERE, es1, 1, SECOND, Made("1"), Sealing(Made("1")));
    LastIsAt(es);
    if FreshTranslations(WHERE, es) {
      RecipeFixesRequest(WHERE, es, |es|, FIRST, SECOND);
    }
  }
}
