/** What preparation accepts and what it makes, in terms of the documents alone. */
module ProcessingContract {
  import opened Core
  import opened Documents
  import opened Processing
  import Manifest
  import PercentCoding

  // ---- Names and paths

  /** Visible ASCII, within 256 characters. */
  lemma IdentitiesExact(s: string)
    ensures ValidIdentity(s) <==> 1 <= |s| <= 256 && forall c :: c in s ==> 0x21 <= c as int <= 0x7E
  {
    assert forall i :: 0 <= i < |s| ==> s[i] in s;
  }

  /** A letter or digit, then letters, digits, dots, underscores and hyphens. */
  predicate PathName(s: string) {
    && 1 <= |s| <= 255 && s[0] !in "._-"
    && forall c :: c in s ==> 'a' <= c <= 'z' || 'A' <= c <= 'Z' || '0' <= c <= '9' || c in "._-"
  }

  predicate Spells(names: seq<string>, path: string) {
    1 <= |names| <= 64 && PercentCoding.Join(names, '/') == path && forall s :: s in names ==> PathName(s)
  }

  lemma {:induction false} SplitOfJoin(parts: seq<string>, separator: char)
    requires parts != [] && forall p :: p in parts ==> separator !in p
    ensures PercentCoding.Split(PercentCoding.Join(parts, separator), separator) == parts
  {
    if |parts| == 1 {
      PercentCoding.SplitWhole(parts[0], separator);
    } else {
      SplitOfJoin(parts[1..], separator);
      SplitHead(parts[0], PercentCoding.Join(parts[1..], separator), separator);
      assert [parts[0]] + parts[1..] == parts;
    }
  }

  lemma {:induction false} SplitHead(head: string, tail: string, separator: char)
    requires separator !in head
    ensures PercentCoding.Split(head + [separator] + tail, separator) == [head] + PercentCoding.Split(tail, separator)
  {
    var s := head + [separator] + tail;
    if head == [] {
      assert s[1..] == tail;
    } else {
      assert s[1..] == head[1..] + [separator] + tail;
      SplitHead(head[1..], tail, separator);
      assert [head[0]] + head[1..] == head;
    }
  }

  /** A relative path is up to 64 path names between slashes, within 1024 characters. */
  lemma PathsExact(path: string)
    ensures RelativePath(path)
            <==> 1 <= |path| <= 1024 && exists names: seq<string> :: Spells(names, path)
  {
    PercentCoding.JoinSplit(path, '/');
    forall s: string ensures PathName(s) <==> 0 < |s| <= 255 && AlphaNumeric(s[0]) && forall i :: 0 <= i < |s| ==> AlphaNumeric(s[i]) || s[i] in "._-" {
      PathNamesExact(s);
    }
    hide PathName, AlphaNumeric, PercentCoding.Split, PercentCoding.Join;
    if RelativePath(path) {
      assert forall s :: s in PercentCoding.Split(path, '/') ==> PathName(s);
      assert Spells(PercentCoding.Split(path, '/'), path);
    }
    if exists names: seq<string> :: Spells(names, path) {
      var names: seq<string> :| Spells(names, path);
      forall s | s in names ensures '/' !in s { NoSlash(s); }
      SplitOfJoin(names, '/');
    }
  }

  lemma PathNamesExact(s: string)
    ensures PathName(s) <==> 0 < |s| <= 255 && AlphaNumeric(s[0]) && forall i :: 0 <= i < |s| ==> AlphaNumeric(s[i]) || s[i] in "._-"
  {
    assert forall i :: 0 <= i < |s| ==> s[i] in s;
  }

  lemma NoSlash(s: string)
    requires PathName(s)
    ensures '/' !in s
  {
  }

  /** A path under a directory has something after the directory and a slash. */
  lemma UnderExact(path: string, directory: string)
    ensures Under(path, directory) <==> exists rest: string :: rest != [] && path == directory + "/" + rest
  {
    if Under(path, directory) {
      assert path == directory + "/" + path[|directory| + 1..];
    }
  }

  // ---- Settings

  /** Sixteen finite numbers whose last row is that of an affine map. */
  predicate Affine(m: seq<Scalar>) {
    && |m| == 16 && (forall x :: x in m ==> x.NegativeZero? || x.Finite?)
    && (forall i :: 12 <= i < 15 ==> m[i] == NegativeZero || m[i] == Finite(0.0)) && m[15] == Finite(1.0)
  }

  /** The number an entry stands for. */
  function Real(x: Scalar): real {
    if x.Finite? then x.value else 0.0
  }

  lemma MatricesExact(m: seq<Scalar>)
    ensures ValidMatrix(m) <==> Affine(m)
    ensures ValidMatrix(NormalizeMatrix(m)) <==> Affine(m)
  {
    assert forall i :: 0 <= i < |m| ==> m[i] in m;
    if |m| == 16 {
      var last, n := [Finite(0.0), Finite(0.0), Finite(0.0), Finite(1.0)], NormalizeMatrix(m);
      assert m[12..][0] == m[12] && m[12..][1] == m[13] && m[12..][2] == m[14] && m[12..][3] == m[15];
      assert n[12..][0] == n[12] && n[12..][1] == n[13] && n[12..][2] == n[14] && n[12..][3] == n[15];
      assert SameMatrix(m[12..], last) <==> SameScalar(m[12], last[0]) && SameScalar(m[13], last[1]) && SameScalar(m[14], last[2]) && SameScalar(m[15], last[3]);
      assert SameMatrix(n[12..], last) <==> SameScalar(n[12], last[0]) && SameScalar(n[13], last[1]) && SameScalar(n[14], last[2]) && SameScalar(n[15], last[3]);
    }
  }

  /** The pairs of a blocker and one of its targets, by position. */
  ghost function TargetsFrom(blockers: seq<Blocker>, low: nat): set<(nat, nat)> {
    set i: nat, k: nat | low <= i < |blockers| && k < |blockers[i].targets| :: (i, k)
  }

  ghost function TargetsOf(blockers: seq<Blocker>, i: nat): set<(nat, nat)>
    requires i < |blockers|
  {
    set k: nat | k < |blockers[i].targets| :: (i, k)
  }

  lemma {:induction false} PositionsOf(i: nat, n: nat)
    ensures |set k: nat | k < n :: (i, k)| == n
  {
    if n > 0 {
      PositionsOf(i, n - 1);
      assert (set k: nat | k < n :: (i, k)) == (set k: nat | k < n - 1 :: (i, k)) + {(i, n - 1)};
    } else {
      assert (set k: nat | k < n :: (i, k)) == {};
    }
  }

  lemma {:induction false} EdgesFrom(blockers: seq<Blocker>, low: nat)
    requires low <= |blockers|
    ensures |TargetsFrom(blockers, low)| == Edges(blockers[low..])
    decreases |blockers| - low
  {
    if low == |blockers| {
      assert TargetsFrom(blockers, low) == {};
    } else {
      EdgesFrom(blockers, low + 1);
      PositionsOf(low, |blockers[low].targets|);
      assert TargetsFrom(blockers, low) == TargetsOf(blockers, low) + TargetsFrom(blockers, low + 1);
      assert blockers[low..][1..] == blockers[low + 1..];
    }
  }

  /** At most 256 blockers of distinct names, each with 1 to 64 distinct targets, and at
      most 16,384 targets in all. */
  lemma BlockersExact(blockers: seq<Blocker>)
    ensures ValidBlockers(blockers)
            <==> && |blockers| <= 256 && |TargetsFrom(blockers, 0)| <= 16_384
                 && (forall i, j :: 0 <= i < |blockers| && 0 <= j < |blockers| && blockers[i].identity == blockers[j].identity ==> i == j)
                 && forall b :: b in blockers ==>
                      && ValidIdentity(b.identity) && 1 <= |b.targets| <= 64
                      && (forall t :: t in b.targets ==> ValidIdentity(t))
                      && forall i, j :: 0 <= i < |b.targets| && 0 <= j < |b.targets| && b.targets[i] == b.targets[j] ==> i == j
  {
    hide ValidIdentity;
    EdgesFrom(blockers, 0);
    assert blockers[0..] == blockers;
    hide Edges, TargetsFrom;
    assert ValidBlockers(blockers) ==> forall b :: b in blockers ==> ValidBlocker(b);
  }

  ghost predicate Placed(p: Placement, e: Expected) {
    && p.identity == e.identity && ValidIdentity(e.identity) && Affine(p.matrix) && Affine(e.matrix)
    && forall k :: 0 <= k < 16 ==> Real(p.matrix[k]) == Real(e.matrix[k])
  }

  lemma PlacementsExact(p: Placement, e: Expected)
    ensures var n := Placement(p.identity, NormalizeMatrix(p.matrix));
            Placed(p, e) <==> PlacementFits(n, e) && ValidIdentity(n.identity) && ValidMatrix(n.matrix)
  {
    hide ValidIdentity;
    MatricesExact(p.matrix);
    MatricesExact(e.matrix);
    hide ValidMatrix;
    assert forall i :: 0 <= i < |p.matrix| ==> p.matrix[i] in p.matrix;
    assert forall i :: 0 <= i < |e.matrix| ==> e.matrix[i] in e.matrix;
  }

  /** The blockers are the auxiliary objects, and they block raw geometry. */
  ghost predicate Blocked(blockers: seq<Blocker>, expected: seq<Expected>) {
    && (set b | b in blockers :: b.identity) == (set e | e in expected && e.role.AuxiliaryGeometry? :: e.identity)
    && forall b, t :: b in blockers && t in b.targets ==> exists e :: e in expected && e.role.RawGeometry? && e.identity == t
  }

  lemma RolesExact(expected: seq<Expected>, identity: string, role: Role)
    ensures RoleIs(expected, identity, role) <==> exists e :: e in expected && e.role == role && e.identity == identity
  {
    if exists e :: e in expected && e.role == role && e.identity == identity {
      var e :| e in expected && e.role == role && e.identity == identity;
      var i :| 0 <= i < |expected| && expected[i] == e;
    }
  }

  lemma BlockingExact(blockers: seq<Blocker>, expected: seq<Expected>)
    requires forall e :: e in expected ==> ValidIdentity(e.identity)
    requires forall i, j :: 0 <= i < j < |expected| ==> expected[i].identity != expected[j].identity
    ensures BlockersFit(blockers, expected) <==> Blocked(blockers, expected)
  {
    hide ValidIdentity;
    forall identity, role ensures RoleIs(expected, identity, role) <==> exists e :: e in expected && e.role == role && e.identity == identity {
      RolesExact(expected, identity, role);
    }
    hide RoleIs;
    var names, auxiliary := set b | b in blockers :: b.identity, set e | e in expected && e.role.AuxiliaryGeometry? :: e.identity;
    if BlockersFit(blockers, expected) {
      assert forall e :: e in expected && e.role.AuxiliaryGeometry? ==> e.identity in names;
      assert forall b :: b in blockers ==> RoleIs(expected, b.identity, AuxiliaryGeometry);
      assert names == auxiliary;
    }
    if Blocked(blockers, expected) {
      forall b | b in blockers ensures RoleIs(expected, b.identity, AuxiliaryGeometry) {
        assert b.identity in names;
      }
      forall e | e in expected && e.role.AuxiliaryGeometry? ensures exists b :: b in blockers && b.identity == e.identity {
        assert e.identity in auxiliary;
      }
    }
  }

  /** Settings fit the expected objects exactly if they place them, in order and with the
      same numbers, and block with the auxiliary ones. */
  lemma {:induction false} ContextExact(json: Json, s: Settings, expected: seq<Expected>)
    ensures ContextFits(json, s, expected)
            <==> && json.settingsLength(Normalize(s)) <= 1_048_576 && s.schemaVersion == 2
                 && ValidBlockers(s.blockers) && Blocked(s.blockers, expected)
                 && |s.placements| == |expected| <= 256
                 && (forall i, j :: 0 <= i < j < |expected| ==> expected[i].identity != expected[j].identity)
                 && forall i :: 0 <= i < |expected| ==> Placed(s.placements[i], expected[i])
  {
    hide ValidBlockers, BlockersFit, Blocked, ValidMatrix, PlacementFits, Placed, ValidIdentity;
    var n := Normalize(s);
    if |s.placements| == |expected| {
      forall i | 0 <= i < |expected|
        ensures Placed(s.placements[i], expected[i])
                <==> PlacementFits(n.placements[i], expected[i]) && ValidIdentity(n.placements[i].identity) && ValidMatrix(n.placements[i].matrix)
        ensures Placed(s.placements[i], expected[i]) ==> s.placements[i].identity == expected[i].identity && ValidIdentity(expected[i].identity)
        ensures PlacementFits(n.placements[i], expected[i]) ==> n.placements[i].identity == expected[i].identity
      {
        PlacementsExact(s.placements[i], expected[i]);
        NamesAgree(s.placements[i], expected[i], n.placements[i]);
      }
      if (forall i, j :: 0 <= i < j < |expected| ==> expected[i].identity != expected[j].identity)
         && (forall e :: e in expected ==> ValidIdentity(e.identity)) {
        BlockingExact(s.blockers, expected);
      }
      FitImpliesNames(n.blockers, expected);
      assert forall p :: p in n.placements ==> exists i :: 0 <= i < |expected| && p == n.placements[i];
      assert forall e :: e in expected ==> exists i :: 0 <= i < |expected| && e == expected[i];
    }
  }

  lemma NamesAgree(p: Placement, e: Expected, n: Placement)
    ensures Placed(p, e) ==> p.identity == e.identity && ValidIdentity(e.identity)
    ensures PlacementFits(n, e) ==> n.identity == e.identity
  {
    hide ValidIdentity, ValidMatrix, Affine;
  }

  lemma FitImpliesNames(blockers: seq<Blocker>, expected: seq<Expected>)
    ensures BlockersFit(blockers, expected) ==> forall e :: e in expected ==> ValidIdentity(e.identity)
  {
    hide ValidIdentity, RoleIs;
  }

  // ---- Manifests

  /** Parents exist, and a number per object falls along every parent link. */
  ghost predicate Ranked(objects: seq<Object>, rank: map<string, nat>) {
    forall o :: o in objects && o.parent.Some? ==>
      && (exists q :: q in objects && q.identity == o.parent.value)
      && o.identity in rank && o.parent.value in rank && rank[o.parent.value] < rank[o.identity]
  }

  lemma {:induction false} ChainsAreRanked(objects: seq<Object>)
    requires Manifest.DistinctIdentities(Shapes(objects))
    requires Manifest.ParentsExist(Shapes(objects)) && Manifest.Acyclic(Manifest.ParentsOf(Shapes(objects)))
    ensures exists rank :: Ranked(objects, rank)
  {
    hide Manifest.Acyclic, Manifest.ParentsOf;
    var shapes := Shapes(objects);
    var parents := Manifest.ParentsOf(shapes);
    Manifest.ParentsOfExact(shapes);
    Manifest.AcyclicIffRanked(parents);
    var rank :| Manifest.Ranks(parents, rank);
    forall o | o in objects && o.parent.Some?
      ensures exists q :: q in objects && q.identity == o.parent.value
      ensures o.identity in rank && o.parent.value in rank && rank[o.parent.value] < rank[o.identity]
    {
      var i :| 0 <= i < |objects| && objects[i] == o;
      assert shapes[i].parent.value in parents;
      var j :| 0 <= j < |shapes| && shapes[j].identity == o.parent.value;
      assert objects[j] in objects;
    }
    assert Ranked(objects, rank);
  }

  lemma {:induction false} RankedParentsExist(objects: seq<Object>, rank: map<string, nat>)
    requires Manifest.DistinctIdentities(Shapes(objects)) && Ranked(objects, rank)
    ensures Manifest.ParentsExist(Shapes(objects))
  {
    hide Manifest.ParentsOf;
    var shapes := Shapes(objects);
    Manifest.ParentsOfExact(shapes);
    forall i | 0 <= i < |shapes| && shapes[i].parent.Some? ensures shapes[i].parent.value in Manifest.ParentsOf(shapes) {
      assert objects[i] in objects;
      var q :| q in objects && q.identity == objects[i].parent.value;
      var j :| 0 <= j < |objects| && objects[j] == q;
      assert shapes[j].identity == q.identity;
    }
  }

  lemma {:induction false} RankedIsAcyclic(objects: seq<Object>, rank: map<string, nat>)
    requires Manifest.DistinctIdentities(Shapes(objects)) && Ranked(objects, rank)
    ensures Manifest.Acyclic(Manifest.ParentsOf(Shapes(objects)))
  {
    hide Manifest.Acyclic, Manifest.ParentsOf;
    var shapes := Shapes(objects);
    var parents := Manifest.ParentsOf(shapes);
    Manifest.ParentsOfExact(shapes);
    Manifest.AcyclicIffRanked(parents);
    var restricted := map x | x in parents :: if x in rank then rank[x] else 0;
    forall x | x in parents && parents[x].Some? && parents[x].value in parents
      ensures restricted[parents[x].value] < restricted[x]
    {
      var i :| 0 <= i < |shapes| && shapes[i].identity == x;
      assert objects[i] in objects;
    }
    assert Manifest.Ranks(parents, restricted);
  }

  lemma ParentsExact(objects: seq<Object>)
    requires Manifest.DistinctIdentities(Shapes(objects))
    ensures Manifest.ParentsExist(Shapes(objects)) && Manifest.Acyclic(Manifest.ParentsOf(Shapes(objects)))
            <==> exists rank :: Ranked(objects, rank)
  {
    hide Manifest.Acyclic, Manifest.ParentsOf, Manifest.ParentsExist, Manifest.DistinctIdentities, Ranked;
    if Manifest.ParentsExist(Shapes(objects)) && Manifest.Acyclic(Manifest.ParentsOf(Shapes(objects))) { ChainsAreRanked(objects); }
    if exists rank :: Ranked(objects, rank) {
      var rank :| Ranked(objects, rank);
      RankedParentsExist(objects, rank);
      RankedIsAcyclic(objects, rank);
    }
  }

  /** A manifest is valid exactly if its identities are those of its own content, its
      objects are at most 256 under inputs/, distinct in name and path, with parents among
      them and no cycle, and, if it is available, everything in it is proven and some
      object is raw geometry. */
  lemma {:induction false} ManifestExact(m: InputManifest)
    ensures ValidManifest(m)
            <==> && (var inputs := if m.available then Some(InputSetId(1, 1, m.objects)) else None;
                     m == InputManifest(1, 1, ManifestId(inputs, m.subject, m.exported, m.available, m.objects), inputs,
                                        m.subject, m.exported, m.available, m.objects))
                 && |m.objects| <= 256 && (exists rank :: Ranked(m.objects, rank))
                 && (forall i, j :: 0 <= i < j < |m.objects| ==>
                       m.objects[i].identity != m.objects[j].identity && m.objects[i].path != m.objects[j].path)
                 && (forall o :: o in m.objects ==> ValidIdentity(o.identity) && RelativePath(o.path) && Under(o.path, "inputs"))
                 && (m.available ==> m.exported.proven && (forall o :: o in m.objects ==> o.proven) && exists o :: o in m.objects && o.role.RawGeometry?)
  {
    hide ValidIdentity, RelativePath, Under, Ranked, Manifest.ParentsExist, Manifest.Acyclic, Manifest.ParentsOf;
    var shapes := Shapes(m.objects);
    assert Manifest.DistinctIdentities(shapes) <==> forall i, j :: 0 <= i < j < |m.objects| ==> m.objects[i].identity != m.objects[j].identity by {
      assert forall i :: 0 <= i < |shapes| ==> shapes[i].identity == m.objects[i].identity;
    }
    assert Manifest.DistinctPaths(shapes) <==> forall i, j :: 0 <= i < j < |m.objects| ==> m.objects[i].path != m.objects[j].path by {
      assert forall i :: 0 <= i < |shapes| ==> shapes[i].path == m.objects[i].path;
    }
    if Manifest.DistinctIdentities(shapes) { ParentsExact(m.objects); }
    hide Manifest.DistinctIdentities, Manifest.DistinctPaths;
  }

  // ---- Preparation

  /** Preparation succeeds exactly if the manifest is valid and available, the settings fit
      what is expected of its objects in their order, the three documents agree on the
      schemas, and the paths of manifest, settings and output are apart. */
  lemma {:induction false} PrepareExact(json: Json, g: Generator, c: Compatibility, m: InputManifest, s: Settings, expected: seq<Expected>,
                                        inputs: ProtocolInputs)
    ensures Prepare(json, g, c, m, s, expected, inputs).Some?
            <==> && ValidManifest(m) && m.available && c.protocolVersion == 1
                 && c.inputKind == m.exported.kind == g.inputKind && c.inputSchema == m.exported.schema == g.inputSchema
                 && c.settingsSchema == "onshape-export-generator-settings-schema-v2" == g.settingsSchema
                 && |expected| == |m.objects|
                 && (forall i :: 0 <= i < |expected| ==> expected[i].identity == m.objects[i].identity && expected[i].role == m.objects[i].role)
                 && ContextFits(json, s, expected)
                 && RelativePath(inputs.manifestPath) && Under(inputs.manifestPath, "inputs")
                 && RelativePath(inputs.settingsPath) && Under(inputs.settingsPath, "inputs")
                 && RelativePath(inputs.output.path) && Under(inputs.output.path, "outputs")
                 && inputs.settingsPath != inputs.manifestPath
                 && forall o :: o in m.objects ==> o.path != inputs.manifestPath && o.path != inputs.settingsPath
  {
    hide Normalize, ValidManifest, ValidInvocation, RelativePath, Under, ContextFits, PreparedOf, RecipeOf;
    ContextAgain(json, s, expected);
    if ValidManifest(m) && m.available {
      AvailableHasInputs(m);
      InvocationExact(json, g, c, m, s, inputs);
    }
  }

  lemma ContextAgain(json: Json, s: Settings, expected: seq<Expected>)
    ensures ContextFits(json, Normalize(s), expected) == ContextFits(json, s, expected)
  {
    NormalizeIsIdempotent(s);
    hide Normalize, BlockersFit, ValidSettings, PlacementFits;
  }

  lemma InvocationExact(json: Json, g: Generator, c: Compatibility, m: InputManifest, s: Settings, inputs: ProtocolInputs)
    requires ValidManifest(m) && m.available && m.inputSet.Some?
    ensures ValidInvocation(RecipeOf(json, g, c, m, s, inputs).invocation, m)
            <==> && c.protocolVersion == 1 && g.settingsSchema == "onshape-export-generator-settings-schema-v2"
                 && g.inputKind == m.exported.kind && g.inputSchema == m.exported.schema
                 && RelativePath(inputs.manifestPath) && Under(inputs.manifestPath, "inputs")
                 && RelativePath(inputs.settingsPath) && Under(inputs.settingsPath, "inputs")
                 && RelativePath(inputs.output.path) && Under(inputs.output.path, "outputs")
                 && inputs.settingsPath != inputs.manifestPath
                 && forall o :: o in m.objects ==> o.path != inputs.manifestPath && o.path != inputs.settingsPath
  {
    hide Normalize, ValidManifest, RelativePath, Under, Decide;
  }

  lemma AvailableHasInputs(m: InputManifest)
    requires ValidManifest(m)
    ensures m.available ==> m.protocolVersion == 1 && m.inputSet == Some(InputSetId(1, 1, m.objects))
  {
    hide ValidIdentity, RelativePath, Under;
  }

  /** The recipe it makes: normalized settings, and everything where it belongs. */
  lemma {:induction false} PreparedRecipe(json: Json, g: Generator, c: Compatibility, m: InputManifest, s: Settings, expected: seq<Expected>,
                                          inputs: ProtocolInputs)
    requires Prepare(json, g, c, m, s, expected, inputs).Some?
    ensures var n := Normalize(s);
            var call := Call(1, Bindings(g, SettingsId(n)), inputs.manifestPath, m.identity, InputSetId(1, 1, m.objects),
                             SettingsInput(SettingsId(n), c.settingsSchema, inputs.contentIdentity, inputs.settingsPath, SettingsText(n),
                                           json.settingsLength(n), inputs.mediaType, inputs.detectedKind),
                             inputs.output);
            var prepared := Prepare(json, g, c, m, s, expected, inputs).value;
            && prepared.recipe == Recipe(1, GeneratorId(g), c, Decide(g, c), DecisionId(c, Decide(g, c)), m, n, SettingsId(n), c.settingsSchema,
                                         Invocation(call, call))
            && prepared.text == Canonical(prepared.recipe) && prepared.hash == TextHash(prepared.text)
            && |n.placements| == |s.placements| && n == s.(placements := n.placements)
            && forall i :: 0 <= i < |s.placements| ==>
                 && n.placements[i].identity == s.placements[i].identity && |n.placements[i].matrix| == |s.placements[i].matrix|
                 && forall k :: 0 <= k < |s.placements[i].matrix| ==>
                      n.placements[i].matrix[k] == if s.placements[i].matrix[k] == NegativeZero then Finite(0.0) else s.placements[i].matrix[k]
  {
    AvailableHasInputs(m);
    NormalizeIsIdempotent(s);
    NormalizedEntries(s);
    hide Normalize, ValidManifest, RelativePath, Under, ContextFits, Decide, Occurrences;
  }

  lemma NormalizedEntries(s: Settings)
    ensures var n := Normalize(s);
            && |n.placements| == |s.placements| && n == s.(placements := n.placements)
            && forall i :: 0 <= i < |s.placements| ==>
                 && n.placements[i].identity == s.placements[i].identity && |n.placements[i].matrix| == |s.placements[i].matrix|
                 && forall k :: 0 <= k < |s.placements[i].matrix| ==>
                      n.placements[i].matrix[k] == if s.placements[i].matrix[k] == NegativeZero then Finite(0.0) else s.placements[i].matrix[k]
  {
  }
}
