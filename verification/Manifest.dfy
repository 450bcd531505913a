/** The object list of an input manifest: generator_protocol.rs accepts it only if
    identities and paths are distinct, parents exist, and parent chains end. */
module Manifest {
  import opened Core

  datatype Object = Object(identity: string, path: string, parent: Option<string>)

  datatype Fault =
    | DuplicateIdentity(identity: string)
    | DuplicatePath(path: string)
    | MissingParent(identity: string, parent: string)
    | ParentCycle(identity: string)

  type Parents = map<string, Option<string>>

  /** `by_identity`, as far as the walk reads it. */
  function ParentsOf(objects: seq<Object>): Parents {
    if objects == [] then map[]
    else
      var last := objects[|objects| - 1];
      ParentsOf(objects[..|objects| - 1])[last.identity := last.parent]
  }

  predicate DistinctIdentities(objects: seq<Object>) {
    forall i, j :: 0 <= i < j < |objects| ==> objects[i].identity != objects[j].identity
  }

  predicate DistinctPaths(objects: seq<Object>) {
    forall i, j :: 0 <= i < j < |objects| ==> objects[i].path != objects[j].path
  }

  predicate ParentsExist(objects: seq<Object>) {
    forall i :: 0 <= i < |objects| && objects[i].parent.Some? ==> objects[i].parent.value in ParentsOf(objects)
  }

  lemma {:induction false} ParentsOfExact(objects: seq<Object>)
    requires DistinctIdentities(objects)
    ensures forall i :: 0 <= i < |objects| ==>
              objects[i].identity in ParentsOf(objects) && ParentsOf(objects)[objects[i].identity] == objects[i].parent
    ensures forall x :: x in ParentsOf(objects) ==> exists i :: 0 <= i < |objects| && objects[i].identity == x
  {
    if objects != [] {
      ParentsOfExact(objects[..|objects| - 1]);
    }
  }

  // ---- Chains

  /** The identity `k` parents above `x`, if the chain is that long. */
  function Ancestor(parents: Parents, x: string, k: nat): Option<string> {
    if k == 0 then Some(x)
    else
      var below := Ancestor(parents, x, k - 1);
      if below.Some? && below.value in parents then parents[below.value] else None
  }

  ghost predicate OnCycle(parents: Parents, x: string) {
    exists k: nat :: k > 0 && Ancestor(parents, x, k) == Some(x)
  }

  ghost predicate Acyclic(parents: Parents) {
    forall x :: !OnCycle(parents, x)
  }

  ghost predicate ChainEnds(parents: Parents, x: string) {
    exists k: nat :: Ancestor(parents, x, k).None?
  }

  /** A number per identity that every parent link lowers. */
  ghost predicate Ranks(parents: Parents, rank: map<string, nat>) {
    rank.Keys == parents.Keys
    && forall x :: x in parents && parents[x].Some? && parents[x].value in parents ==> rank[parents[x].value] < rank[x]
  }

  lemma {:induction false} AncestorsCompose(parents: Parents, x: string, j: nat, d: nat)
    requires Ancestor(parents, x, j).Some?
    ensures Ancestor(parents, x, j + d) == Ancestor(parents, Ancestor(parents, x, j).value, d)
  {
    if d > 0 {
      AncestorsCompose(parents, x, j, d - 1);
    }
  }

  lemma {:induction false} EndedChainsStayEnded(parents: Parents, x: string, j: nat, k: nat)
    requires j <= k && Ancestor(parents, x, j).None?
    ensures Ancestor(parents, x, k).None?
  {
    if j < k {
      EndedChainsStayEnded(parents, x, j, k - 1);
    }
  }

  /** A chain that ends never comes back to where it started. */
  lemma {:induction false} EndedChainsHaveNoCycle(parents: Parents, x: string, k: nat, c: nat)
    requires Ancestor(parents, x, k).None? && c > 0
    ensures Ancestor(parents, x, c) != Some(x)
  {
    if Ancestor(parents, x, c) == Some(x) {
      if k <= c {
        EndedChainsStayEnded(parents, x, k, c);
      } else {
        AncestorsCompose(parents, x, c, k - c);
        EndedChainsHaveNoCycle(parents, x, k - c, c);
      }
    }
  }

  /** Revisiting an identity on the way up exhibits a cycle through it. */
  lemma RevisitIsCycle(parents: Parents, x: string, j: nat, k: nat)
    requires j < k && Ancestor(parents, x, j).Some? && Ancestor(parents, x, k) == Ancestor(parents, x, j)
    ensures OnCycle(parents, Ancestor(parents, x, j).value)
  {
    AncestorsCompose(parents, x, j, k - j);
  }

  lemma {:induction false} ForeignChainsEnd(parents: Parents, x: string)
    requires x !in parents
    ensures ChainEnds(parents, x)
  {
    assert Ancestor(parents, x, 0) == Some(x);
    assert Ancestor(parents, x, 1).None?;
  }

  ghost function Universe(parents: Parents): set<string> {
    parents.Keys + set x | x in parents && parents[x].Some? :: parents[x].value
  }

  /** `visited` holds the first `k` identities of the chain. */
  ghost predicate VisitedUpTo(parents: Parents, start: string, k: nat, visited: set<string>) {
    forall x :: x in visited <==> exists j: nat :: j < k && Ancestor(parents, start, j) == Some(x)
  }

  lemma {:induction false} VisitNext(parents: Parents, start: string, k: nat, visited: set<string>)
    requires VisitedUpTo(parents, start, k, visited) && Ancestor(parents, start, k).Some?
    ensures VisitedUpTo(parents, start, k + 1, visited + {Ancestor(parents, start, k).value})
  {
    hide Ancestor;
    var x := Ancestor(parents, start, k).value;
    forall y | y in visited + {x} ensures exists j: nat :: j < k + 1 && Ancestor(parents, start, j) == Some(y) {
      if y == x {
        assert Ancestor(parents, start, k) == Some(y);
      }
    }
  }

  lemma StaysInUniverse(parents: Parents, start: string, k: nat)
    requires Ancestor(parents, start, k).Some?
    ensures Ancestor(parents, start, k).value in Universe(parents) + {start}
  {
  }

  lemma {:induction false} VisitedTwice(parents: Parents, start: string, k: nat, visited: set<string>)
    requires VisitedUpTo(parents, start, k, visited) && Ancestor(parents, start, k).Some?
    requires Ancestor(parents, start, k).value in visited
    ensures OnCycle(parents, Ancestor(parents, start, k).value) && !ChainEnds(parents, start)
  {
    var j: nat :| j < k && Ancestor(parents, start, j) == Ancestor(parents, start, k);
    RevisitIsCycle(parents, start, j, k);
    CyclesNeverEnd(parents, start, k);
  }

  /** The `while let` loop that follows one object's parents. It terminates on every
      map, closed or not, and reports an identity exactly when the chain does not end. */
  method WalkParents(parents: Parents, start: string) returns (cycle: Option<string>)
    ensures cycle.None? <==> ChainEnds(parents, start)
    ensures cycle.Some? ==> OnCycle(parents, cycle.value) && exists k: nat :: Ancestor(parents, start, k) == cycle
  {
    hide Universe, VisitedUpTo, ChainEnds, OnCycle;
    var visited: set<string> := {};
    var current := Some(start);
    ghost var k := 0;
    NothingVisited(parents, start);
    while current.Some?
      invariant current == Ancestor(parents, start, k)
      invariant VisitedUpTo(parents, start, k, visited)
      decreases Universe(parents) + {start} - visited, current.Some?
    {
      var identity := current.value;
      if identity in visited {
        VisitedTwice(parents, start, k, visited);
        return Some(identity);
      }
      StaysInUniverse(parents, start, k);
      VisitNext(parents, start, k, visited);
      visited := visited + {identity};
      current := if identity in parents then parents[identity] else None;
      k := k + 1;
    }
    ReachedTheEnd(parents, start, k);
    return None;
  }

  lemma NothingVisited(parents: Parents, start: string)
    ensures VisitedUpTo(parents, start, 0, {})
  {
  }

  lemma ReachedTheEnd(parents: Parents, start: string, k: nat)
    requires Ancestor(parents, start, k).None?
    ensures ChainEnds(parents, start)
  {
  }

  lemma CyclesNeverEnd(parents: Parents, start: string, k: nat)
    requires Ancestor(parents, start, k).Some? && OnCycle(parents, Ancestor(parents, start, k).value)
    ensures !ChainEnds(parents, start)
  {
    var x := Ancestor(parents, start, k).value;
    var c: nat :| c > 0 && Ancestor(parents, x, c) == Some(x);
    forall e: nat ensures Ancestor(parents, start, e).Some? {
      ChainContinues(parents, start, k, c, e);
    }
  }

  lemma ChainContinues(parents: Parents, start: string, k: nat, c: nat, e: nat)
    requires Ancestor(parents, start, k).Some? && c > 0
    requires Ancestor(parents, Ancestor(parents, start, k).value, c) == Ancestor(parents, start, k)
    ensures Ancestor(parents, start, e).Some?
  {
    var x := Ancestor(parents, start, k).value;
    if Ancestor(parents, start, e).None? {
      EndedChainsStayEnded(parents, start, e, k + e);
      AncestorsCompose(parents, start, k, e);
      EndedChainsHaveNoCycle(parents, x, e, c);
    }
  }

  // ---- Acyclicity, chain ends and ranks are the same thing

  /** Pigeonhole: without cycles a chain visits each identity once and so ends. */
  lemma AcyclicChainsEnd(parents: Parents, start: string)
    requires Acyclic(parents)
    ensures ChainEnds(parents, start)
  {
    hide Universe, VisitedUpTo;
    var visited: set<string> := {};
    var k := 0;
    NothingVisited(parents, start);
    while Ancestor(parents, start, k).Some?
      invariant VisitedUpTo(parents, start, k, visited)
      decreases Universe(parents) + {start} - visited
    {
      FirstVisit(parents, start, k, visited);
      StaysInUniverse(parents, start, k);
      VisitNext(parents, start, k, visited);
      visited := visited + {Ancestor(parents, start, k).value};
      k := k + 1;
    }
  }

  lemma {:induction false} FirstVisit(parents: Parents, start: string, k: nat, visited: set<string>)
    requires Acyclic(parents) && Ancestor(parents, start, k).Some? && VisitedUpTo(parents, start, k, visited)
    ensures Ancestor(parents, start, k).value !in visited
  {
    if Ancestor(parents, start, k).value in visited {
      VisitedTwice(parents, start, k, visited);
    }
  }

  /** The length of a chain that ends within `k` steps. */
  ghost function Length(parents: Parents, x: string, k: nat): nat
    requires Ancestor(parents, x, k).None?
    decreases k
  {
    if x !in parents || parents[x].None? then 0
    else
      assert Ancestor(parents, x, 0) == Some(x);
      assert Ancestor(parents, x, 1) == parents[x];
      assert k > 1;
      AncestorsCompose(parents, x, 1, k - 1);
      1 + Length(parents, parents[x].value, k - 1)
  }

  lemma {:induction false} LengthIsUnique(parents: Parents, x: string, j: nat, k: nat)
    requires Ancestor(parents, x, j).None? && Ancestor(parents, x, k).None?
    ensures Length(parents, x, j) == Length(parents, x, k)
    decreases j
  {
    if x in parents && parents[x].Some? {
      assert Ancestor(parents, x, 0) == Some(x);
      assert Ancestor(parents, x, 1) == parents[x];
      assert j > 1 && k > 1;
      AncestorsCompose(parents, x, 1, j - 1);
      AncestorsCompose(parents, x, 1, k - 1);
      LengthIsUnique(parents, parents[x].value, j - 1, k - 1);
    }
  }

  ghost function End(parents: Parents, x: string): (k: nat)
    requires ChainEnds(parents, x)
    ensures Ancestor(parents, x, k).None?
  {
    var k: nat :| Ancestor(parents, x, k).None?;
    k
  }

  lemma {:induction false} RanksForbidCycles(parents: Parents, rank: map<string, nat>, x: string, k: nat)
    requires Ranks(parents, rank) && x in parents && k > 0
    ensures var a := Ancestor(parents, x, k); a.Some? && a.value in parents ==> rank[a.value] < rank[x]
  {
    assert Ancestor(parents, x, 0) == Some(x);
    if k > 1 {
      RanksForbidCycles(parents, rank, x, k - 1);
    }
  }

  /** Acyclic parents can be ranked, and rankable parents are acyclic. */
  lemma AcyclicIffRanked(parents: Parents)
    ensures Acyclic(parents) <==> exists rank :: Ranks(parents, rank)
  {
    if Acyclic(parents) {
      forall x | x in parents ensures ChainEnds(parents, x) {
        AcyclicChainsEnd(parents, x);
      }
      var rank := map x | x in parents :: Length(parents, x, End(parents, x));
      forall x | x in parents && parents[x].Some? && parents[x].value in parents
        ensures rank[parents[x].value] < rank[x]
      {
        LengthDropsToParent(parents, x);
      }
      assert Ranks(parents, rank);
    }
    if rank :| Ranks(parents, rank) {
      forall x ensures !OnCycle(parents, x) {
        RankedIsOffCycle(parents, rank, x);
      }
    }
  }

  lemma LengthDropsToParent(parents: Parents, x: string)
    requires ChainEnds(parents, x)
    requires x in parents && parents[x].Some? && ChainEnds(parents, parents[x].value)
    ensures Length(parents, parents[x].value, End(parents, parents[x].value)) < Length(parents, x, End(parents, x))
  {
    var p, k := parents[x].value, End(parents, x);
    assert Ancestor(parents, x, 0) == Some(x);
    assert Ancestor(parents, x, 1) == parents[x];
    AncestorsCompose(parents, x, 1, k - 1);
    LengthIsUnique(parents, p, k - 1, End(parents, p));
  }

  lemma RankedIsOffCycle(parents: Parents, rank: map<string, nat>, x: string)
    requires Ranks(parents, rank)
    ensures !OnCycle(parents, x)
  {
    if k: nat :| k > 0 && Ancestor(parents, x, k) == Some(x) {
      if x in parents {
        RanksForbidCycles(parents, rank, x, k);
      } else {
        assert Ancestor(parents, x, 0) == Some(x);
        assert Ancestor(parents, x, 1).None?;
        EndedChainsStayEnded(parents, x, 1, k);
      }
    }
  }

  // ---- Validation

  ghost predicate Explains(objects: seq<Object>, fault: Fault) {
    match fault
    case DuplicateIdentity(x) =>
      exists i, j :: 0 <= i < j < |objects| && objects[i].identity == objects[j].identity == x
    case DuplicatePath(path) =>
      exists i, j :: 0 <= i < j < |objects| && objects[i].path == objects[j].path == path
    case MissingParent(x, p) =>
      p !in ParentsOf(objects) && exists i :: 0 <= i < |objects| && objects[i].identity == x && objects[i].parent == Some(p)
    case ParentCycle(x) =>
      OnCycle(ParentsOf(objects), x)
  }

  lemma {:induction false} EndsForAllMeansAcyclic(objects: seq<Object>)
    requires DistinctIdentities(objects)
    requires forall i :: 0 <= i < |objects| ==> ChainEnds(ParentsOf(objects), objects[i].identity)
    ensures Acyclic(ParentsOf(objects))
  {
    var parents := ParentsOf(objects);
    ParentsOfExact(objects);
    forall x ensures !OnCycle(parents, x) {
      if x !in parents {
        ForeignChainsEnd(parents, x);
      }
      assert ChainEnds(parents, x);
      var k: nat :| Ancestor(parents, x, k).None?;
      forall c: nat | c > 0 ensures Ancestor(parents, x, c) != Some(x) {
        EndedChainsHaveNoCycle(parents, x, k, c);
      }
    }
  }

  ghost predicate Seen(objects: seq<Object>, identities: set<string>, paths: set<string>) {
    && (forall x :: x in identities <==> exists j :: 0 <= j < |objects| && objects[j].identity == x)
    && (forall x :: x in paths <==> exists j :: 0 <= j < |objects| && objects[j].path == x)
  }

  lemma SeeNext(objects: seq<Object>, o: Object, identities: set<string>, paths: set<string>)
    requires Seen(objects, identities, paths)
    ensures Seen(objects + [o], identities + {o.identity}, paths + {o.path})
    ensures DistinctIdentities(objects + [o]) <==> DistinctIdentities(objects) && o.identity !in identities
    ensures DistinctPaths(objects + [o]) <==> DistinctPaths(objects) && o.path !in paths
  {
    var all := objects + [o];
    assert all[|objects|] == o;
    assert forall j :: 0 <= j < |objects| ==> all[j] == objects[j];
  }

  lemma PrefixIsDistinct(objects: seq<Object>, i: nat)
    requires i <= |objects|
    ensures DistinctIdentities(objects) ==> DistinctIdentities(objects[..i])
    ensures DistinctPaths(objects) ==> DistinctPaths(objects[..i])
  {
  }

  /** The first loop: fill `identities`, `paths` and `by_identity`. */
  method IndexObjects(objects: seq<Object>) returns (r: Result<Parents, Fault>)
    ensures r.Ok? <==> DistinctIdentities(objects) && DistinctPaths(objects)
    ensures r.Ok? ==> r.value == ParentsOf(objects)
    ensures r.Err? ==> !r.error.MissingParent? && !r.error.ParentCycle? && Explains(objects, r.error)
  {
    var identities, paths, parents, i := {}, {}, map[], 0;
    assert objects[..0] == [];
    while i < |objects|
      invariant i <= |objects| && parents == ParentsOf(objects[..i])
      invariant Seen(objects[..i], identities, paths)
      invariant DistinctIdentities(objects[..i]) && DistinctPaths(objects[..i])
    {
      var o := objects[i];
      assert objects[..i + 1] == objects[..i] + [o];
      SeeNext(objects[..i], o, identities, paths);
      PrefixIsDistinct(objects, i + 1);
      if o.identity in identities {
        return Err(DuplicateIdentity(o.identity));
      }
      if o.path in paths {
        return Err(DuplicatePath(o.path));
      }
      identities, paths := identities + {o.identity}, paths + {o.path};
      parents := parents[o.identity := o.parent];
      i := i + 1;
    }
    assert objects[..i] == objects;
    return Ok(parents);
  }

  /** `InputManifest::validate` over its objects: the failure reported is real, and
      nothing else is refused. */
  method ValidateObjects(objects: seq<Object>) returns (r: Result<(), Fault>)
    ensures r.Ok? <==> DistinctIdentities(objects) && DistinctPaths(objects)
                       && ParentsExist(objects) && Acyclic(ParentsOf(objects))
    ensures r.Err? ==> Explains(objects, r.error)
  {
    var indexed := IndexObjects(objects);
    if indexed.Err? {
      return Err(indexed.error);
    }
    var parents, i := indexed.value, 0;
    hide ParentsOf, ChainEnds, DistinctIdentities, DistinctPaths;
    while i < |objects|
      invariant i <= |objects|
      invariant forall j :: 0 <= j < i && objects[j].parent.Some? ==> objects[j].parent.value in parents
      invariant forall j :: 0 <= j < i ==> ChainEnds(parents, objects[j].identity)
    {
      var o := objects[i];
      if o.parent.Some? && o.parent.value !in parents {
        return Err(MissingParent(o.identity, o.parent.value));
      }
      var cycle := WalkParents(parents, o.identity);
      if cycle.Some? {
        return Err(ParentCycle(cycle.value));
      }
      i := i + 1;
    }
    EndsForAllMeansAcyclic(objects);
    return Ok(());
  }
}
