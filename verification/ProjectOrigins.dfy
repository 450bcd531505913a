/** Where recipes come from: each is prepared from one acquisition, whose translation
    ids are in it. As long as the remote gives every translation an id of its own, a
    recipe is bound to at most one request. */
module ProjectOrigins {
  import opened Core
  import opened Artifacts
  import opened Publication
  import opened ProjectProtocol
  import opened ProjectSafety
  import PP = PublicationProtocol
  import Processing

  /** The event is an acquisition whose recipe and output are accepted. */
  ghost predicate Acquired(d: Deployment, s: State, e: Event) {
    && e.Act? && e.action.Acquire? && e.action.accepted
    && e.x in s.execs && s.execs[e.x].phase.Acquiring?
    && PreparedFor(d, s.execs[e.x].request, e.action.p) && Sealed(e.action.p, e.action.output)
  }

  function TranslationsOf(p: Recipe): set<string> {
    Processing.Translations(p.document.manifest)
  }

  /** The hypothesis on the remote: no translation id is given out twice. */
  ghost predicate FreshTranslations(d: Deployment, es: seq<Event>) {
    forall j, k :: 0 <= j < k < |es| && Acquired(d, At(d, es, j), es[j]) && Acquired(d, At(d, es, k), es[k]) ==>
      TranslationsOf(es[j].action.p) !! TranslationsOf(es[k].action.p)
  }

  /** A recipe is prepared from at least one object. */
  lemma PreparedHasTranslations(d: Deployment, r: Request, p: Recipe)
    requires PreparedFor(d, r, p)
    ensures TranslationsOf(p) != {}
  {
    var c, m, s, expected, inputs :| Yields(d, c, m, s, expected, inputs, p.document);
    Processing.PreparedHasObjects(d.json, d.generator, c, m, s, expected, inputs);
    assert p.document.manifest.objects[0] in p.document.manifest.objects;
    assert p.document.manifest.objects[0].mapping.translation in TranslationsOf(p);
  }

  /** Among the first `i` events one acquired this recipe for this request. */
  ghost predicate Origin(d: Deployment, es: seq<Event>, i: nat, k: nat, p: Recipe, r: Request)
    requires i <= |es|
  {
    k < i && Acquired(d, At(d, es, k), es[k]) && es[k].action.p == p && At(d, es, k).execs[es[k].x].request == r
  }

  ghost predicate HasOrigin(d: Deployment, es: seq<Event>, i: nat, p: Recipe, r: Request)
    requires i <= |es|
  {
    exists k :: Origin(d, es, i, k, p, r)
  }

  predicate Carries(phase: Phase) {
    phase.Accepted? || phase.Persisted?
  }

  ghost predicate OriginsOk(d: Deployment, es: seq<Event>, i: nat, s: State)
    requires i <= |es|
  {
    && (forall x :: x in s.execs && Carries(s.execs[x].phase) ==> HasOrigin(d, es, i, s.execs[x].phase.p, s.execs[x].request))
    && (forall id :: id in s.requests && s.requests[id].processing.Some? ==>
          HasOrigin(d, es, i, s.requests[id].processing.value.recipe, id.request))
  }

  lemma OriginStays(d: Deployment, es: seq<Event>, i: nat, j: nat, p: Recipe, r: Request)
    requires i <= j <= |es| && HasOrigin(d, es, i, p, r)
    ensures HasOrigin(d, es, j, p, r)
  {
    hide Acquired, At;
    var k :| Origin(d, es, i, k, p, r);
    assert Origin(d, es, j, k, p, r);
  }

  /** An execution comes to carry a recipe by acquiring it, and keeps it by persisting. */
  lemma CarriedIsAcquired(d: Deployment, s: State, e: Event, x: nat)
    requires x in Next(d, s, e).execs && Carries(Next(d, s, e).execs[x].phase)
    ensures var after := Next(d, s, e).execs[x];
            || (e.Act? && e.action.Acquire? && e.x == x && x in s.execs && Acquired(d, s, e) && after.phase.p == e.action.p && after.request == s.execs[x].request)
            || (x in s.execs && Carries(s.execs[x].phase) && s.execs[x].phase.p == after.phase.p && s.execs[x].request == after.request)
  {
    hide PP.Next, PreparedFor, Sealed, TargetOf, StoredRecipe, BindRow;
  }

  /** A request is bound to what the binding execution carried. */
  lemma BoundIsCarried(d: Deployment, s: State, e: Event, id: RequestId)
    requires id in Next(d, s, e).requests && Next(d, s, e).requests[id].processing.Some?
    ensures var hash := Next(d, s, e).requests[id].processing.value;
            || (id in s.requests && s.requests[id].processing == Some(hash))
            || (e.Act? && e.x in s.execs && s.execs[e.x].phase.Persisted? && id == RequestId(s.execs[e.x].request)
                && hash == ProcessingHash(s.execs[e.x].phase.p))
  {
    hide PP.Next, PreparedFor, Sealed, TargetOf, StoredRecipe;
    if !e.Enqueue? && !(e.Act? && e.action.Bind?) {
      RequestsChange(d, s, e);
    }
  }

  lemma {:induction false} RunKeepsOrigins(d: Deployment, es: seq<Event>, i: nat)
    requires i <= |es|
    ensures OriginsOk(d, es, i, At(d, es, i))
  {
    hide Next, Acquired, HasOrigin;
    if i > 0 {
      RunKeepsOrigins(d, es, i - 1);
      var s, e, after := At(d, es, i - 1), es[i - 1], At(d, es, i);
      forall x | x in after.execs && Carries(after.execs[x].phase)
        ensures HasOrigin(d, es, i, after.execs[x].phase.p, after.execs[x].request)
      {
        CarriedIsAcquired(d, s, e, x);
        if e.Act? && e.action.Acquire? && e.x == x && x in s.execs && Acquired(d, s, e) && after.execs[x].phase.p == e.action.p && after.execs[x].request == s.execs[x].request {
          NewOrigin(d, es, i);
        } else {
          OriginStays(d, es, i - 1, i, after.execs[x].phase.p, after.execs[x].request);
        }
      }
      forall id | id in after.requests && after.requests[id].processing.Some?
        ensures HasOrigin(d, es, i, after.requests[id].processing.value.recipe, id.request)
      {
        BoundIsCarried(d, s, e, id);
        OriginStays(d, es, i - 1, i, after.requests[id].processing.value.recipe, id.request);
      }
    }
  }

  lemma NewOrigin(d: Deployment, es: seq<Event>, i: nat)
    requires 0 < i <= |es| && Acquired(d, At(d, es, i - 1), es[i - 1])
    ensures HasOrigin(d, es, i, es[i - 1].action.p, At(d, es, i - 1).execs[es[i - 1].x].request)
  {
    assert Origin(d, es, i, i - 1, es[i - 1].action.p, At(d, es, i - 1).execs[es[i - 1].x].request);
  }

  /** With fresh translation ids two requests bound to one recipe are one request. */
  lemma {:induction false} RecipeFixesRequest(d: Deployment, es: seq<Event>, i: nat, a: Request, b: Request)
    requires i <= |es| && FreshTranslations(d, es)
    requires var s := At(d, es, i);
             IsBound(s, a) && IsBound(s, b) && s.requests[RequestId(a)].processing == s.requests[RequestId(b)].processing
    ensures a == b
  {
    hide At, Acquired, PreparedFor;
    RunKeepsOrigins(d, es, i);
    var p := At(d, es, i).requests[RequestId(a)].processing.value.recipe;
    var j :| Origin(d, es, i, j, p, a);
    var k :| Origin(d, es, i, k, p, b);
    if j != k {
      var lower, upper := if j < k then j else k, if j < k then k else j;
      assert Acquired(d, At(d, es, lower), es[lower]) && Acquired(d, At(d, es, upper), es[upper]);
      AcquiredHasTranslations(d, At(d, es, lower), es[lower]);
    }
  }

  lemma AcquiredHasTranslations(d: Deployment, s: State, e: Event)
    requires Acquired(d, s, e)
    ensures TranslationsOf(e.action.p) != {}
  {
    PreparedHasTranslations(d, s.execs[e.x].request, e.action.p);
  }

  /** Every accepted document reads back as it is: acquisition works from a plan that was
      itself read back from its canonical text. */
  ghost predicate AcquiresReadable(d: Deployment, es: seq<Event>) {
    forall k :: 0 <= k < |es| && Acquired(d, At(d, es, k), es[k]) ==> Readable(d, es[k].action.p.document)
  }

  lemma {:induction false} BoundIsReadable(d: Deployment, es: seq<Event>, i: nat, r: Request)
    requires i <= |es| && AcquiresReadable(d, es) && IsBound(At(d, es, i), r)
    ensures Readable(d, At(d, es, i).requests[RequestId(r)].processing.value.recipe.document)
  {
    hide At, Acquired, Readable;
    RunKeepsOrigins(d, es, i);
    var p := At(d, es, i).requests[RequestId(r)].processing.value.recipe;
    var k :| Origin(d, es, i, k, p, r);
  }
}
