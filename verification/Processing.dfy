/** Generator recipes, generator_processing.rs: preparing one from acquired inputs,
    and reopening a stored one by recomputing everything it derives. */
module Processing {
  import opened Core
  import opened Documents
  import Manifest
  import PercentCoding

  // ---- Settings, with the matrices of onshape_annotation.rs

  const MAX_OBJECTS := 256
  const MAX_TARGETS := 64
  const MAX_EDGES := 16_384
  const MAX_IDENTITY_LENGTH := 256
  const MAX_DOCUMENT_BYTES := 1_048_576
  const SETTINGS_VERSION := 2

  function Number(x: Scalar): Option<real> {
    match x
    case NegativeZero => Some(0.0)
    case Finite(v) => Some(v)
    case _ => None
  }

  /** Equality of doubles: zeros are equal, NaN is not equal to itself. */
  predicate SameScalar(x: Scalar, y: Scalar) {
    if Number(x).Some? then Number(x) == Number(y) else x.Infinite? && x == y
  }

  predicate SameMatrix(a: seq<Scalar>, b: seq<Scalar>) {
    |a| == |b| && forall i :: 0 <= i < |a| ==> SameScalar(a[i], b[i])
  }

  function NormalizeScalar(x: Scalar): Scalar {
    if SameScalar(x, Finite(0.0)) then Finite(0.0) else x
  }

  /** `normalize_matrix`. */
  function NormalizeMatrix(m: seq<Scalar>): (r: seq<Scalar>)
    ensures |r| == |m| && forall i :: 0 <= i < |m| ==> r[i] == NormalizeScalar(m[i])
  {
    seq(|m|, i requires 0 <= i < |m| => NormalizeScalar(m[i]))
  }

  function NormalizePlacements(ps: seq<Placement>): (r: seq<Placement>)
    ensures |r| == |ps|
    ensures forall i :: 0 <= i < |ps| ==> r[i] == Placement(ps[i].identity, NormalizeMatrix(ps[i].matrix))
  {
    seq(|ps|, i requires 0 <= i < |ps| => Placement(ps[i].identity, NormalizeMatrix(ps[i].matrix)))
  }

  /** `normalize_generator_settings_v2`. */
  function Normalize(s: Settings): Settings {
    s.(placements := NormalizePlacements(s.placements))
  }

  predicate ValidIdentity(s: string) {
    0 < |s| <= MAX_IDENTITY_LENGTH && forall i :: 0 <= i < |s| ==> '!' <= s[i] <= '~'
  }

  predicate Distinct(names: seq<string>) {
    forall i, j :: 0 <= i < j < |names| ==> names[i] != names[j]
  }

  function Edges(blockers: seq<Blocker>): nat {
    if blockers == [] then 0 else |blockers[0].targets| + Edges(blockers[1..])
  }

  predicate ValidBlocker(b: Blocker) {
    && ValidIdentity(b.identity)
    && 0 < |b.targets| <= MAX_TARGETS
    && Distinct(b.targets)
    && forall t :: t in b.targets ==> ValidIdentity(t)
  }

  /** `validate_generator_settings`. */
  predicate ValidBlockers(blockers: seq<Blocker>) {
    && |blockers| <= MAX_OBJECTS
    && (forall i, j :: 0 <= i < j < |blockers| ==> blockers[i].identity != blockers[j].identity)
    && (forall b :: b in blockers ==> ValidBlocker(b))
    && Edges(blockers) <= MAX_EDGES
  }

  /** `validate_matrix`. */
  predicate ValidMatrix(m: seq<Scalar>) {
    && |m| == 16
    && (forall i :: 0 <= i < 16 ==> Number(m[i]).Some?)
    && SameMatrix(m[12..], [Finite(0.0), Finite(0.0), Finite(0.0), Finite(1.0)])
  }

  predicate ValidSettings(json: Json, s: Settings) {
    && json.settingsLength(s) <= MAX_DOCUMENT_BYTES
    && s.schemaVersion == SETTINGS_VERSION
    && ValidBlockers(s.blockers)
    && |s.placements| <= MAX_OBJECTS
    && (forall p :: p in s.placements ==> ValidIdentity(p.identity) && ValidMatrix(p.matrix))
    && forall i, j :: 0 <= i < j < |s.placements| ==> s.placements[i].identity != s.placements[j].identity
  }

  predicate RoleIs(expected: seq<Expected>, identity: string, role: Role) {
    exists i :: 0 <= i < |expected| && expected[i].identity == identity && expected[i].role == role
  }

  /** `validate_settings_context`: the blockers are exactly the auxiliary objects, and
      their targets are raw geometry. */
  predicate BlockersFit(blockers: seq<Blocker>, expected: seq<Expected>) {
    && (forall e :: e in expected ==> ValidIdentity(e.identity))
    && (forall i, j :: 0 <= i < j < |expected| ==> expected[i].identity != expected[j].identity)
    && (forall e :: e in expected && e.role.AuxiliaryGeometry? ==> exists b :: b in blockers && b.identity == e.identity)
    && (forall b :: b in blockers ==>
          RoleIs(expected, b.identity, AuxiliaryGeometry) && forall t :: t in b.targets ==> RoleIs(expected, t, RawGeometry))
  }

  predicate PlacementFits(p: Placement, e: Expected) {
    && p.identity == e.identity
    && ValidMatrix(NormalizeMatrix(e.matrix))
    && SameMatrix(p.matrix, NormalizeMatrix(e.matrix))
  }

  /** `validate_settings_context_v2`. */
  predicate ContextFits(json: Json, s: Settings, expected: seq<Expected>) {
    var n := Normalize(s);
    && ValidSettings(json, n)
    && |n.placements| == |expected|
    && BlockersFit(n.blockers, expected)
    && forall i :: 0 <= i < |expected| ==> PlacementFits(n.placements[i], expected[i])
  }

  // ---- Stored texts

  /** The ids of the translations an acquisition made. */
  function Translations(m: InputManifest): set<string> {
    set o | o in m.objects :: o.mapping.translation
  }

  /** A stored text: the canonical one of a recipe, another spelling of one, or not a
      recipe at all. */
  datatype Text = Canonical(recipe: Recipe) | Loose(recipe: Recipe, spelling: string) | Malformed(bytes: seq<byte>)

  /** The JSON library as far as recipes meet it: which texts are within the byte,
      depth and member bounds, what a printed number reads back as, and how long
      printed settings are. */
  datatype Json = Json(admits: Text -> bool, reread: real -> real, settingsLength: Settings -> nat)

  datatype TextHash = TextHash(text: Text)

  datatype OccurrenceId = OccurrenceId(processing: TextHash, order: nat, identity: string, path: string)

  datatype Occurrence = Occurrence(identity: OccurrenceId, order: nat, source: Object, placement: Placement)

  datatype Prepared = Prepared(hash: TextHash, text: Text, recipe: Recipe, occurrences: seq<Occurrence>)

  const PROTOCOL_VERSION := 1
  const MANIFEST_VERSION := 1
  const RECIPE_VERSION := 1
  const SETTINGS_SCHEMA := "onshape-export-generator-settings-schema-v2"

  // ---- Validation

  function Shapes(objects: seq<Object>): (r: seq<Manifest.Object>)
    ensures |r| == |objects|
  {
    seq(|objects|, i requires 0 <= i < |objects| => Manifest.Object(objects[i].identity, objects[i].path, objects[i].parent))
  }

  predicate AlphaNumeric(c: char) {
    'a' <= c <= 'z' || 'A' <= c <= 'Z' || '0' <= c <= '9'
  }

  /** `validate_relative_path`. */
  predicate RelativePath(path: string) {
    var segments := PercentCoding.Split(path, '/');
    && 0 < |path| <= 1024 && |segments| <= 64
    && forall s :: s in segments ==>
         0 < |s| <= 255 && AlphaNumeric(s[0]) && forall i :: 0 <= i < |s| ==> AlphaNumeric(s[i]) || s[i] in "._-"
  }

  /** `is_under_directory`. */
  predicate Under(path: string, directory: string) {
    directory + "/" < path
  }

  /** `InputManifest::validate`, over the fields kept here. */
  ghost predicate ValidManifest(m: InputManifest) {
    && m.protocolVersion == PROTOCOL_VERSION && m.manifestVersion == MANIFEST_VERSION
    && |m.objects| <= MAX_OBJECTS
    && (m.available ==> m.objects != [] && m.exported.proven && m.inputSet.Some?)
    && (!m.available ==> m.inputSet.None?)
    && (forall o :: o in m.objects ==>
          ValidIdentity(o.identity) && RelativePath(o.path) && Under(o.path, "inputs") && (m.available ==> o.proven))
    && Manifest.DistinctIdentities(Shapes(m.objects)) && Manifest.DistinctPaths(Shapes(m.objects))
    && (m.available ==> exists o :: o in m.objects && o.role.RawGeometry?)
    && Manifest.ParentsExist(Shapes(m.objects)) && Manifest.Acyclic(Manifest.ParentsOf(Shapes(m.objects)))
    && m.inputSet == (if m.available then Some(InputSetId(m.protocolVersion, m.manifestVersion, m.objects)) else None)
    && m.identity == ManifestId(m.inputSet, m.subject, m.exported, m.available, m.objects)
  }

  /** `GeneratorRequest::validate_with_manifest`. */
  ghost predicate ValidInvocation(v: Invocation, m: InputManifest) {
    var c := v.call;
    && c.protocolVersion == PROTOCOL_VERSION
    && RelativePath(c.manifestPath) && Under(c.manifestPath, "inputs")
    && RelativePath(c.settings.path) && Under(c.settings.path, "inputs") && c.settings.path != c.manifestPath
    && RelativePath(c.output.path) && Under(c.output.path, "outputs")
    && c.bindings.settings == c.settings.settings && c.bindings.generator.settingsSchema == c.settings.schema
    && v.identity == c
    && ValidManifest(m) && m.available && c.manifest == m.identity && m.inputSet == Some(c.inputSet)
    && c.bindings.generator.inputKind == m.exported.kind && c.bindings.generator.inputSchema == m.exported.schema
    && forall o :: o in m.objects ==> o.path != c.manifestPath && o.path != c.settings.path
  }

  /** `ensure_compatible`: the first differing field. */
  function Decide(g: Generator, c: Compatibility): Decision {
    if c.protocolVersion != g.protocolVersion then Unsupported("protocolVersion")
    else if c.dialect != g.dialect then Unsupported("dialectIdentity")
    else if c.capabilities != g.capabilities then Unsupported("capabilityIdentities")
    else if c.inputKind != g.inputKind then Unsupported("inputKindIdentity")
    else if c.inputSchema != g.inputSchema then Unsupported("inputSchemaIdentity")
    else if c.settingsSchema != g.settingsSchema then Unsupported("settingsSchemaIdentity")
    else Supported
  }

  /** A recipe is supported exactly if its compatibility document agrees with the deployed
      one in all six fields, and otherwise the field named is one that differs. */
  lemma DecideExact(g: Generator, c: Compatibility)
    ensures Decide(g, c) == Supported
            <==> c == Compatibility(g.protocolVersion, g.dialect, g.capabilities, g.inputKind, g.inputSchema, g.settingsSchema)
    ensures match Decide(g, c)
            case Supported => true
            case Unsupported(field) =>
              || (field == "protocolVersion" && c.protocolVersion != g.protocolVersion)
              || (field == "dialectIdentity" && c.dialect != g.dialect)
              || (field == "capabilityIdentities" && c.capabilities != g.capabilities)
              || (field == "inputKindIdentity" && c.inputKind != g.inputKind)
              || (field == "inputSchemaIdentity" && c.inputSchema != g.inputSchema)
              || (field == "settingsSchemaIdentity" && c.settingsSchema != g.settingsSchema)
  {
  }

  // ---- Prepare

  /** Canonical text, printed by the rules of RFC 8785: negative zero prints as zero. */
  function Print(r: Recipe): Text {
    Canonical(r.(settings := Normalize(r.settings)))
  }

  function InvocationOf(g: Generator, c: Compatibility, m: InputManifest, inputSet: InputSetId, s: Settings, length: nat,
                        inputs: ProtocolInputs): Invocation {
    var call := Call(
      c.protocolVersion, Bindings(g, SettingsId(s)), inputs.manifestPath, m.identity, inputSet,
      SettingsInput(SettingsId(s), SETTINGS_SCHEMA, inputs.contentIdentity, inputs.settingsPath, SettingsText(s), length,
                    inputs.mediaType, inputs.detectedKind),
      inputs.output);
    Invocation(call, call)
  }

  /** `derive_occurrences`, from one order number on. */
  function Occurrences(hash: TextHash, objects: seq<Object>, placements: seq<Placement>, order: nat): seq<Occurrence> {
    if objects == [] || placements == [] then []
    else
      [Occurrence(OccurrenceId(hash, order, objects[0].identity, objects[0].path), order, objects[0], placements[0])]
      + Occurrences(hash, objects[1..], placements[1..], order + 1)
  }

  predicate ExpectedInOrder(expected: seq<Expected>, objects: seq<Object>) {
    |expected| == |objects|
    && forall i :: 0 <= i < |expected| ==> expected[i].identity == objects[i].identity && expected[i].role == objects[i].role
  }

  function RecipeOf(json: Json, g: Generator, c: Compatibility, m: InputManifest, s: Settings, inputs: ProtocolInputs): Recipe
    requires m.inputSet.Some?
  {
    var n := Normalize(s);
    Recipe(RECIPE_VERSION, GeneratorId(g), c, Decide(g, c), DecisionId(c, Decide(g, c)), m, n, SettingsId(n), SETTINGS_SCHEMA,
           InvocationOf(g, c, m, m.inputSet.value, n, json.settingsLength(n), inputs))
  }

  function PreparedOf(r: Recipe): Prepared {
    var hash := TextHash(Print(r));
    Prepared(hash, Print(r), r, Occurrences(hash, r.manifest.objects, r.settings.placements, 0))
  }

  /** `prepare_generator_processing`; `None` is any refusal. */
  ghost function Prepare(json: Json, g: Generator, c: Compatibility, m: InputManifest, s: Settings, expected: seq<Expected>,
                         inputs: ProtocolInputs): Option<Prepared> {
    if !ValidManifest(m) || !m.available || m.exported.kind != c.inputKind || m.exported.schema != c.inputSchema
       || !ExpectedInOrder(expected, m.objects)
       || !ContextFits(json, Normalize(s), expected)
       || SETTINGS_SCHEMA != c.settingsSchema
       || !ValidInvocation(RecipeOf(json, g, c, m, s, inputs).invocation, m)
    then None
    else Some(PreparedOf(RecipeOf(json, g, c, m, s, inputs)))
  }

  // ---- Reopen

  function RereadScalar(json: Json, x: Scalar): Scalar {
    if x.Finite? then Finite(json.reread(x.value)) else x
  }

  function RereadPlacements(json: Json, ps: seq<Placement>): (r: seq<Placement>)
    ensures |r| == |ps|
  {
    seq(|ps|, i requires 0 <= i < |ps| =>
      Placement(ps[i].identity, seq(|ps[i].matrix|, k requires 0 <= k < |ps[i].matrix| => RereadScalar(json, ps[i].matrix[k]))))
  }

  function Reread(json: Json, r: Recipe): Recipe {
    r.(settings := r.settings.(placements := RereadPlacements(json, r.settings.placements)))
  }

  /** `parse_json` and `from_value`. */
  function Parse(json: Json, text: Text): Option<Recipe> {
    if !json.admits(text) then None
    else match text
      case Canonical(r) => Some(Reread(json, r))
      case Loose(r, _) => Some(r)
      case Malformed(_) => None
  }

  function ExpectedOf(objects: seq<Object>, placements: seq<Placement>): (r: seq<Expected>)
    requires |objects| == |placements|
    ensures |r| == |objects|
  {
    seq(|objects|, i requires 0 <= i < |objects| => Expected(objects[i].identity, objects[i].role, placements[i].matrix))
  }

  function InputsOf(v: Invocation): ProtocolInputs {
    ProtocolInputs(v.call.manifestPath, v.call.settings.contentIdentity, v.call.settings.path, v.call.settings.mediaType,
                   v.call.settings.detectedKind, v.call.output)
  }

  /** `reopen_generator_processing`: prepare again from the stored recipe's own parts,
      then compare hash and text with what is stored. */
  ghost function Reopen(json: Json, g: Generator, hash: TextHash, text: Text): Option<Prepared> {
    var parsed := Parse(json, text);
    if parsed.None? then None
    else
      var r := parsed.value;
      if r.generator != GeneratorId(g) || r.version != RECIPE_VERSION || !r.decision.Supported?
         || |r.manifest.objects| != |r.settings.placements|
      then None
      else
        var again := Prepare(json, g, r.compatibility, r.manifest, r.settings,
                             ExpectedOf(r.manifest.objects, r.settings.placements), InputsOf(r.invocation));
        if again.Some? && again.value.hash == hash && again.value.text == text then again else None
  }

  // ---- What preparation fixes

  lemma NormalizeIsIdempotent(s: Settings)
    ensures Normalize(Normalize(s)) == Normalize(s)
  {
    var n := Normalize(s);
    forall i | 0 <= i < |n.placements| ensures Normalize(n).placements[i] == n.placements[i] {
      assert NormalizeMatrix(n.placements[i].matrix) == n.placements[i].matrix;
    }
    assert Normalize(n).placements == n.placements;
  }

  lemma MatrixFitsItself(m: seq<Scalar>)
    requires ValidMatrix(m)
    ensures SameMatrix(m, m)
  {
  }

  lemma ContextIsInOrder(json: Json, s: Settings, expected: seq<Expected>)
    requires s == Normalize(s) && ContextFits(json, s, expected)
    ensures |s.placements| == |expected|
    ensures forall i :: 0 <= i < |expected| ==>
              s.placements[i].identity == expected[i].identity && SameMatrix(s.placements[i].matrix, NormalizeMatrix(expected[i].matrix))
  {
    hide ValidMatrix, ValidSettings, SameMatrix, BlockersFit;
    assert forall i :: 0 <= i < |expected| ==> PlacementFits(s.placements[i], expected[i]);
  }

  /** Prepared settings place exactly the manifest's objects, in the manifest's order,
      with the expected matrices. */
  lemma {:induction false} PreparedIsInOrder(json: Json, g: Generator, c: Compatibility, m: InputManifest, s: Settings,
                          expected: seq<Expected>, inputs: ProtocolInputs)
    requires Prepare(json, g, c, m, s, expected, inputs).Some?
    ensures var p := Prepare(json, g, c, m, s, expected, inputs).value;
            && p.recipe.manifest == m && p.recipe.settings == Normalize(s)
            && |p.recipe.settings.placements| == |m.objects| == |expected|
            && forall i :: 0 <= i < |m.objects| ==>
                 && p.recipe.settings.placements[i].identity == m.objects[i].identity == expected[i].identity
                 && SameMatrix(p.recipe.settings.placements[i].matrix, NormalizeMatrix(expected[i].matrix))
  {
    hide ValidManifest, ContextFits, ValidInvocation, SameMatrix;
    NormalizeIsIdempotent(s);
    ContextIsInOrder(json, Normalize(s), expected);
  }

  /** One occurrence per object, in order, each with its own identity. */
  lemma {:induction false} OccurrencesExact(hash: TextHash, objects: seq<Object>, placements: seq<Placement>, order: nat)
    requires |objects| == |placements|
    ensures var os := Occurrences(hash, objects, placements, order);
            && |os| == |objects|
            && (forall i :: 0 <= i < |os| ==>
                 os[i] == Occurrence(OccurrenceId(hash, order + i, objects[i].identity, objects[i].path), order + i,
                                     objects[i], placements[i]))
            && forall i, j :: 0 <= i < j < |os| ==> os[i].identity != os[j].identity
  {
    if objects != [] {
      OccurrencesExact(hash, objects[1..], placements[1..], order + 1);
    }
  }

  lemma {:induction false} ContextFitsAgain(json: Json, s: Settings, expected: seq<Expected>, objects: seq<Object>)
    requires s == Normalize(s) && ContextFits(json, s, expected) && ExpectedInOrder(expected, objects)
    ensures |objects| == |s.placements|
    ensures var again := ExpectedOf(objects, s.placements); ContextFits(json, s, again) && ExpectedInOrder(again, objects)
  {
    hide ValidMatrix, ValidSettings;
    var again := ExpectedOf(objects, s.placements);
    BlockersFitAgain(s.blockers, expected, again);
    assert ValidSettings(json, s);
    forall i | 0 <= i < |again| ensures PlacementFits(s.placements[i], again[i]) {
      assert NormalizePlacements(s.placements)[i] == s.placements[i];
      ValidSettingsMatrix(json, s, i);
      MatrixFitsItself(s.placements[i].matrix);
    }
  }

  lemma ValidSettingsMatrix(json: Json, s: Settings, i: nat)
    requires ValidSettings(json, s) && i < |s.placements|
    ensures ValidMatrix(s.placements[i].matrix)
  {
    assert s.placements[i] in s.placements;
  }

  lemma BlockersFitAgain(blockers: seq<Blocker>, a: seq<Expected>, b: seq<Expected>)
    requires BlockersFit(blockers, a) && |a| == |b|
    requires forall i :: 0 <= i < |a| ==> a[i].identity == b[i].identity && a[i].role == b[i].role
    ensures BlockersFit(blockers, b)
  {
    forall x: string, role: Role | RoleIs(a, x, role) ensures RoleIs(b, x, role) {
      var i :| 0 <= i < |a| && a[i].identity == x && a[i].role == role;
      assert b[i].identity == x;
    }
    forall e | e in b
      ensures ValidIdentity(e.identity)
      ensures e.role.AuxiliaryGeometry? ==> exists c :: c in blockers && c.identity == e.identity
    {
      var i :| 0 <= i < |b| && b[i] == e;
      assert a[i] in a;
    }
  }

  /** Preparing again from a prepared recipe's own parts gives it back. */
  lemma {:induction false} PreparingAgain(json: Json, g: Generator, c: Compatibility, m: InputManifest, s: Settings, expected: seq<Expected>,
                       inputs: ProtocolInputs)
    requires Prepare(json, g, c, m, s, expected, inputs).Some?
    ensures var p := Prepare(json, g, c, m, s, expected, inputs).value; var r := p.recipe;
            && |r.manifest.objects| == |r.settings.placements|
            && Prepare(json, g, r.compatibility, r.manifest, r.settings,
                       ExpectedOf(r.manifest.objects, r.settings.placements), InputsOf(r.invocation)) == Some(p)
  {
    hide ValidManifest, ContextFits, ValidInvocation, ExpectedInOrder;
    NormalizeIsIdempotent(s);
    ContextFitsAgain(json, Normalize(s), expected, m.objects);
    hide Normalize;
  }

  lemma {:induction false} PreparedIsPrinted(json: Json, g: Generator, c: Compatibility, m: InputManifest, s: Settings, expected: seq<Expected>,
                          inputs: ProtocolInputs)
    requires Prepare(json, g, c, m, s, expected, inputs).Some?
    ensures var p := Prepare(json, g, c, m, s, expected, inputs).value;
            && p.text == Canonical(p.recipe) && p.hash == TextHash(p.text)
            && p.recipe.generator == GeneratorId(g) && p.recipe.version == RECIPE_VERSION
  {
    hide ValidManifest, ContextFits, ValidInvocation, ExpectedInOrder;
    NormalizeIsIdempotent(s);
  }

  lemma PreparedHasObjects(json: Json, g: Generator, c: Compatibility, m: InputManifest, s: Settings, expected: seq<Expected>,
                           inputs: ProtocolInputs)
    requires Prepare(json, g, c, m, s, expected, inputs).Some?
    ensures Prepare(json, g, c, m, s, expected, inputs).value.recipe.manifest.objects != []
  {
    hide ContextFits, ValidInvocation, ExpectedInOrder, Normalize;
  }

  lemma PreparedPrintsItself(json: Json, g: Generator, c: Compatibility, m: InputManifest, s: Settings, expected: seq<Expected>,
                             inputs: ProtocolInputs)
    requires Prepare(json, g, c, m, s, expected, inputs).Some?
    ensures var p := Prepare(json, g, c, m, s, expected, inputs).value; p.text == Print(p.recipe)
  {
    hide ValidManifest, ContextFits, ValidInvocation, ExpectedInOrder, Normalize;
  }

  /** Reading numbers back never makes a negative zero out of prepared settings, so what
      normalization would change is left as it was. */
  lemma RereadIsNormal(json: Json, r: Recipe)
    requires r.settings == Normalize(r.settings)
    ensures Normalize(Reread(json, r).settings) == Reread(json, r).settings
  {
    var t := Reread(json, r).settings;
    forall i | 0 <= i < |t.placements| ensures Normalize(t).placements[i] == t.placements[i] {
      var m := t.placements[i].matrix;
      assert r.settings.placements[i] == Normalize(r.settings).placements[i];
      forall k | 0 <= k < |m| ensures NormalizeScalar(m[k]) == m[k] {
        assert r.settings.placements[i].matrix[k] == NormalizeScalar(r.settings.placements[i].matrix[k]);
      }
      assert NormalizeMatrix(m) == m;
    }
    assert Normalize(t).placements == t.placements;
  }

  /** Reopen inverts prepare exactly when the recipe is supported, its text is within
      the reader's bounds, and its numbers survive being printed and read: then the
      identical value comes back, otherwise nothing does. */
  lemma {:induction false} ReopenInvertsPrepare(json: Json, g: Generator, c: Compatibility, m: InputManifest, s: Settings,
                             expected: seq<Expected>, inputs: ProtocolInputs)
    requires Prepare(json, g, c, m, s, expected, inputs).Some?
    ensures var p := Prepare(json, g, c, m, s, expected, inputs).value;
            Reopen(json, g, p.hash, p.text)
            == if p.recipe.decision.Supported? && json.admits(p.text) && Reread(json, p.recipe) == p.recipe then Some(p) else None
  {
    PreparingAgain(json, g, c, m, s, expected, inputs);
    PreparedIsPrinted(json, g, c, m, s, expected, inputs);
    NormalizeIsIdempotent(s);
    var p := Prepare(json, g, c, m, s, expected, inputs).value;
    assert p.recipe.settings == Normalize(s);
    RereadIsNormal(json, p.recipe);
    hide Prepare, Normalize;
    if Reopen(json, g, p.hash, p.text).Some? {
      var r := Reread(json, p.recipe);
      AgainKeepsSettings(json, g, r);
    }
  }

  /** Whatever is prepared from a recipe's parts carries its settings, normalized. */
  lemma {:induction false} AgainKeepsSettings(json: Json, g: Generator, r: Recipe)
    requires |r.manifest.objects| == |r.settings.placements|
    ensures var again := Prepare(json, g, r.compatibility, r.manifest, r.settings,
                                 ExpectedOf(r.manifest.objects, r.settings.placements), InputsOf(r.invocation));
            again.Some? ==> again.value.recipe.settings == Normalize(r.settings)
                            && again.value.text == Canonical(again.value.recipe)
  {
    hide ValidManifest, ContextFits, ValidInvocation, ExpectedInOrder;
    NormalizeIsIdempotent(r.settings);
  }

  /** A successful reopen returns the stored hash and the stored text, which hash to
      each other, under the very deployment that prepared them. */
  lemma {:induction false} ReopenIsExact(json: Json, g: Generator, hash: TextHash, text: Text)
    requires Reopen(json, g, hash, text).Some?
    ensures var p := Reopen(json, g, hash, text).value;
            && p.hash == hash && p.text == text && hash == TextHash(text)
            && text == Canonical(p.recipe) && p.recipe.generator == GeneratorId(g) && p.recipe.decision.Supported?
            && p.occurrences == Occurrences(hash, p.recipe.manifest.objects, p.recipe.settings.placements, 0)
            && |p.occurrences| == |p.recipe.manifest.objects|
  {
    hide ValidManifest, ContextFits, ValidInvocation, ExpectedInOrder;
    var r := Parse(json, text).value;
    AgainKeepsSettings(json, g, r);
    NormalizeIsIdempotent(r.settings);
    var p := Reopen(json, g, hash, text).value;
    OccurrencesExact(hash, p.recipe.manifest.objects, p.recipe.settings.placements, 0);
  }

  /** An edited text under the same hash never reopens, under any deployment. */
  lemma {:induction false} EditedRecipesAreRejected(json: Json, g: Generator, h: Generator, hash: TextHash, stored: Text, edited: Text)
    requires Reopen(json, g, hash, stored).Some? && edited != stored
    ensures Reopen(json, h, hash, edited).None?
  {
    ReopenIsExact(json, g, hash, stored);
    if Reopen(json, h, hash, edited).Some? {
      ReopenIsExact(json, h, hash, edited);
    }
  }

  /** Any difference in the deployed document makes stored recipes unreadable. */
  lemma {:induction false} OtherDeploymentsRefuse(json: Json, g: Generator, h: Generator, hash: TextHash, text: Text)
    requires Reopen(json, g, hash, text).Some? && h != g
    ensures Reopen(json, h, hash, text).None?
  {
    ReopenIsExact(json, g, hash, text);
    if Reopen(json, h, hash, text).Some? {
      ReopenIsExact(json, h, hash, text);
    }
  }

  // ---- An invocation that prepares and reopens

  const UNIT: seq<Scalar> := [
    Finite(1.0), NegativeZero, Finite(0.0), Finite(0.0),
    Finite(0.0), Finite(1.0), Finite(0.0), Finite(0.0),
    Finite(0.0), Finite(0.0), Finite(1.0), Finite(0.0),
    Finite(0.0), Finite(0.0), Finite(0.0), Finite(1.0)]

  function Part(translation: string): Object {
    Object("o", RawGeometry, "inputs/o", "c", "h", 1, true, Evidence("e", translation, "x"), None, None, "")
  }

  const EXPORT := ExportInput("k", "s", true)

  const SUBJECT := Subject("r", "a", "b")

  function PartsOf(translation: string): InputSetId {
    InputSetId(1, 1, [Part(translation)])
  }

  /** A manifest of one object, acquired by one translation. */
  function ManifestOf(translation: string): InputManifest {
    var parts := [Part(translation)];
    InputManifest(1, 1, ManifestId(Some(PartsOf(translation)), SUBJECT, EXPORT, true, parts), Some(PartsOf(translation)),
                  SUBJECT, EXPORT, true, parts)
  }

  const DEPLOYED := Generator(1, "d", [], "k", "s", SETTINGS_SCHEMA, "b")

  const ASKED := Compatibility(1, "d", [], "k", "s", SETTINGS_SCHEMA)

  const CHOSEN := Settings(2, [], [Placement("o", UNIT)])

  const PROTOCOL := ProtocolInputs("inputs/m", "c", "inputs/s", "t", "k", OutputDeclaration("p", "outputs/p", "t", 1))

  predicate PathSegment(s: string) {
    0 < |s| <= 255 && AlphaNumeric(s[0]) && forall i :: 0 <= i < |s| ==> AlphaNumeric(s[i]) || s[i] in "._-"
  }

  lemma PathIsFine(head: string, tail: string, path: string)
    requires PathSegment(head) && PathSegment(tail) && |path| <= 1024 && path == head + "/" + tail
    ensures RelativePath(path) && Under(path, head)
  {
    PercentCoding.SplitJoined(head, tail, '/');
    assert path == head + ['/'] + tail;
    assert PercentCoding.Split(path, '/') == [head, tail];
  }

  lemma PathsAreFine()
    ensures RelativePath("inputs/o") && RelativePath("inputs/m") && RelativePath("inputs/s") && RelativePath("outputs/p")
    ensures Under("inputs/o", "inputs") && Under("inputs/m", "inputs") && Under("inputs/s", "inputs") && Under("outputs/p", "outputs")
  {
    hide RelativePath, Under;
    PathIsFine("inputs", "o", "inputs/o");
    PathIsFine("inputs", "m", "inputs/m");
    PathIsFine("inputs", "s", "inputs/s");
    PathIsFine("outputs", "p", "outputs/p");
  }

  lemma ParentsAreFine(translation: string)
    ensures var shapes := Shapes([Part(translation)]);
            && Manifest.DistinctIdentities(shapes) && Manifest.DistinctPaths(shapes)
            && Manifest.ParentsExist(shapes) && Manifest.Acyclic(Manifest.ParentsOf(shapes))
  {
    var shapes := Shapes([Part(translation)]);
    assert shapes == [Manifest.Object("o", "inputs/o", None)];
    assert shapes[..|shapes| - 1] == [];
    var parents := Manifest.ParentsOf(shapes);
    assert Manifest.ParentsOf([]) == map[];
    assert shapes[0].identity == "o" && parents == map[]["o" := None];
    assert Manifest.Ranks(parents, map["o" := 0]);
    Manifest.AcyclicIffRanked(parents);
  }

  lemma ManifestIsValid(translation: string)
    ensures ValidManifest(ManifestOf(translation))
  {
    hide RelativePath, Under, Manifest.DistinctIdentities, Manifest.DistinctPaths, Manifest.ParentsExist, Manifest.Acyclic, Manifest.ParentsOf;
    PathsAreFine();
    ParentsAreFine(translation);
    assert Part(translation) in ManifestOf(translation).objects;
  }

  lemma UnitIsValid()
    ensures ValidMatrix(NormalizeMatrix(UNIT)) && SameMatrix(NormalizeMatrix(UNIT), NormalizeMatrix(UNIT))
  {
    assert forall i :: 0 <= i < 16 ==> Number(NormalizeMatrix(UNIT)[i]).Some?;
  }

  lemma ContextIsFine(json: Json)
    requires json.settingsLength(Normalize(CHOSEN)) <= MAX_DOCUMENT_BYTES
    ensures ContextFits(json, Normalize(CHOSEN), [Expected("o", RawGeometry, UNIT)])
  {
    hide NormalizeMatrix, ValidMatrix, SameMatrix;
    UnitIsValid();
    NormalizeIsIdempotent(CHOSEN);
    var n := Normalize(CHOSEN);
    assert n.placements == [Placement("o", NormalizeMatrix(UNIT))];
  }

  /** The example's recipe, acquired by one translation. */
  function Example(json: Json, translation: string): Recipe {
    RecipeOf(json, DEPLOYED, ASKED, ManifestOf(translation), CHOSEN, PROTOCOL)
  }

  lemma SomethingPrepares(json: Json, translation: string)
    requires json.settingsLength(Normalize(CHOSEN)) <= MAX_DOCUMENT_BYTES
    ensures Prepare(json, DEPLOYED, ASKED, ManifestOf(translation), CHOSEN, [Expected("o", RawGeometry, UNIT)], PROTOCOL)
            == Some(PreparedOf(Example(json, translation)))
  {
    hide RelativePath, Under, ValidManifest, ContextFits, Normalize;
    PathsAreFine();
    ManifestIsValid(translation);
    ContextIsFine(json);
    NormalizeIsIdempotent(CHOSEN);
    assert ValidInvocation(Example(json, translation).invocation, ManifestOf(translation));
  }

  /** None of this is vacuous: with any reader of reasonable capacity and exact numbers,
      an invocation can be prepared, and it reopens. */
  lemma SomethingPreparesAndReopens(json: Json, translation: string)
    requires json.settingsLength(Normalize(CHOSEN)) <= MAX_DOCUMENT_BYTES
    requires forall v :: json.reread(v) == v
    ensures var p := PreparedOf(Example(json, translation));
            && Prepare(json, DEPLOYED, ASKED, ManifestOf(translation), CHOSEN, [Expected("o", RawGeometry, UNIT)], PROTOCOL) == Some(p)
            && (json.admits(p.text) ==> Reopen(json, DEPLOYED, p.hash, p.text) == Some(p))
  {
    hide Prepare, Reopen;
    SomethingPrepares(json, translation);
    ReopenInvertsPrepare(json, DEPLOYED, ASKED, ManifestOf(translation), CHOSEN, [Expected("o", RawGeometry, UNIT)], PROTOCOL);
    ExactNumbersSurvive(json, Example(json, translation));
  }

  /** A reader that admits everything but loses a number. */
  const LOSSY := Json(_ => true, x => if x == 1.0 then 2.0 else x, _ => 0)

  /** And reopening does fail at a concrete reader and recipe. */
  lemma SomethingPreparesAndIsLost()
    ensures var p := PreparedOf(Example(LOSSY, "t"));
            && Prepare(LOSSY, DEPLOYED, ASKED, ManifestOf("t"), CHOSEN, [Expected("o", RawGeometry, UNIT)], PROTOCOL) == Some(p)
            && Reopen(LOSSY, DEPLOYED, p.hash, p.text) == None
  {
    hide Prepare, Reopen;
    SomethingPrepares(LOSSY, "t");
    ReopenInvertsPrepare(LOSSY, DEPLOYED, ASKED, ManifestOf("t"), CHOSEN, [Expected("o", RawGeometry, UNIT)], PROTOCOL);
    var r := Example(LOSSY, "t");
    assert r.settings.placements[0].matrix[0] == Finite(1.0);
    assert Reread(LOSSY, r).settings.placements[0].matrix[0] == Finite(2.0);
  }

  lemma ExactNumbersSurvive(json: Json, r: Recipe)
    requires forall v :: json.reread(v) == v
    ensures Reread(json, r) == r
  {
    var ps := r.settings.placements;
    forall i | 0 <= i < |ps| ensures RereadPlacements(json, ps)[i] == ps[i] {
      assert RereadPlacements(json, ps)[i].matrix == ps[i].matrix;
    }
    assert RereadPlacements(json, ps) == ps;
  }
}
