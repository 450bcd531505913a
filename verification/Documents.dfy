/** The documents a generator recipe is made of. Every identity is a constructor over
    what it hashes. */
module Documents {
  import opened Core

  // ---- Settings of onshape_annotation.rs

  /** A double; zero comes with either sign. */
  datatype Scalar = NegativeZero | Finite(value: real) | Infinite(negative: bool) | NaN

  datatype Role = RawGeometry | AuxiliaryGeometry

  datatype Blocker = Blocker(identity: string, targets: seq<string>)

  datatype Placement = Placement(identity: string, matrix: seq<Scalar>)

  datatype Settings = Settings(schemaVersion: int, blockers: seq<Blocker>, placements: seq<Placement>)

  datatype Expected = Expected(identity: string, role: Role, matrix: seq<Scalar>)

  // ---- Manifest, invocation and recipe

  /** What `evidence_identity` hashes: the request for one object, and the ids the
      remote gave to its translation and to the data it exported. */
  datatype Evidence = Evidence(request: string, translation: string, externalData: string)

  datatype Object = Object(
    identity: string, role: Role, path: string, contentIdentity: string, sha: string, byteLength: u64,
    proven: bool, mapping: Evidence, parent: Option<string>, displayName: Option<string>, provenance: string)

  datatype InputSetId = InputSetId(protocolVersion: int, manifestVersion: int, objects: seq<Object>)

  datatype ManifestId = ManifestId(inputSet: Option<InputSetId>, subject: Subject, exported: ExportInput, available: bool, objects: seq<Object>)

  datatype ExportInput = ExportInput(kind: string, schema: string, proven: bool)

  datatype Subject = Subject(requirements: string, source: string, config: string)

  datatype InputManifest = InputManifest(
    protocolVersion: int, manifestVersion: int, identity: ManifestId, inputSet: Option<InputSetId>,
    subject: Subject, exported: ExportInput, available: bool, objects: seq<Object>)

  datatype SettingsId = SettingsId(settings: Settings)

  datatype SettingsText = SettingsText(settings: Settings)

  datatype Compatibility = Compatibility(
    protocolVersion: int, dialect: string, capabilities: seq<string>, inputKind: string, inputSchema: string, settingsSchema: string)

  datatype Decision = Supported | Unsupported(field: string)

  datatype DecisionId = DecisionId(compatibility: Compatibility, decision: Decision)

  /** The deployed generator's document; `build` stands for its remaining identities. */
  datatype Generator = Generator(
    protocolVersion: int, dialect: string, capabilities: seq<string>, inputKind: string, inputSchema: string,
    settingsSchema: string, build: string)

  /** `static_identity` hashes the document. */
  datatype GeneratorId = GeneratorId(document: Generator)

  datatype Bindings = Bindings(generator: Generator, settings: SettingsId)

  datatype OutputDeclaration = OutputDeclaration(identity: string, path: string, mediaType: string, maxByteLength: u64)

  datatype SettingsInput = SettingsInput(
    settings: SettingsId, schema: string, contentIdentity: string, path: string, sha: SettingsText, byteLength: nat,
    mediaType: string, detectedKind: string)

  datatype Call = Call(
    protocolVersion: int, bindings: Bindings, manifestPath: string, manifest: ManifestId, inputSet: InputSetId,
    settings: SettingsInput, output: OutputDeclaration)

  datatype Invocation = Invocation(identity: Call, call: Call)

  datatype ProtocolInputs = ProtocolInputs(
    manifestPath: string, contentIdentity: string, settingsPath: string, mediaType: string, detectedKind: string,
    output: OutputDeclaration)

  datatype Recipe = Recipe(
    version: int, generator: GeneratorId, compatibility: Compatibility, decision: Decision, decisionId: DecisionId,
    manifest: InputManifest, settings: Settings, settingsId: SettingsId, settingsSchema: string, invocation: Invocation)
}
