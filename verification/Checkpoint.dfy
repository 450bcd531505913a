/** Private copies of accepted output, generator_output_checkpoint.rs: snapshots in
    directories named by the hash of their receipt, written beside the root and
    renamed into it, and what a crash or a power loss leaves of them. */
module Checkpoint {
  import opened Core
  import opened Artifacts
  import Publication
  import Measured
  import Documents

  const RECEIPT_LIMIT := 1_048_576

  datatype Receipt = Receipt(schemaVersion: int, processing: ProcessingHash, invocation: Documents.Call, result: ResultDoc)

  /** `hash_json(DOMAIN, receipt)`. */
  datatype Identity = Identity(receipt: Receipt)

  /** The bytes of receipt.json: the canonical text of a receipt, or anything else. */
  datatype Document = Canonical(receipt: Receipt) | Other(bytes: seq<byte>)

  /** Accepted generator output, as the runner or a checkpoint hands it over. */
  type Accepted = Publication.Output

  function ReceiptOf(a: Accepted): Receipt {
    Receipt(1, a.processing, a.invocation, a.result)
  }

  function NameOf(a: Accepted): Identity {
    Identity(ReceiptOf(a))
  }

  // ---- The disk

  /** A file with whether its bytes are known to be on disk. */
  datatype File<T> = File(content: T, synced: bool)

  /** A snapshot directory: its files, whether its own entries are on disk, and
      whether the root's entry for it is. */
  datatype Snapshot = Snapshot(output: Option<File<seq<byte>>>, receipt: Option<File<Document>>, synced: bool, linked: bool)

  type Root = map<Identity, Snapshot>

  predicate Durable(s: Snapshot) {
    s.synced && (s.output.Some? ==> s.output.value.synced) && (s.receipt.Some? ==> s.receipt.value.synced)
  }

  /** `sync_all` on the root directory. */
  function Synced(root: Root): (r: Root)
    ensures r.Keys == root.Keys && forall id :: id in root ==> r[id] == root[id].(linked := true)
  {
    map id | id in root :: root[id].(linked := true)
  }

  /** `validate`. */
  predicate Valid(receipt: Receipt, p: Recipe) {
    && receipt.schemaVersion == 1
    && receipt.processing == ProcessingHash(p)
    && receipt.invocation == InvocationOf(p)
    && Publication.ResultAllowed(p, receipt.result)
  }

  /** The byte evidence `measure_copy` asks for. */
  predicate Evident(result: ResultDoc, bytes: seq<byte>) {
    |bytes| == result.byteLength && Sha256(bytes) == result.sha
  }

  /** What `reopen` makes of a root; `size` is the length of a canonical receipt. */
  function Reopened(size: Receipt -> nat, root: Root, id: Identity, p: Recipe): Option<Accepted> {
    if id !in root || root[id].receipt.None? || !root[id].receipt.value.content.Canonical? then None
    else
      var receipt := root[id].receipt.value.content.receipt;
      if size(receipt) > RECEIPT_LIMIT || Identity(receipt) != id || !Valid(receipt, p)
         || root[id].output.None? || !Evident(receipt.result, root[id].output.value.content)
      then None
      else Some(Publication.Output(receipt.processing, receipt.invocation, receipt.result, root[id].output.value.content))
  }

  predicate Persistable(size: Receipt -> nat, a: Accepted, p: Recipe) {
    Valid(ReceiptOf(a), p) && size(ReceiptOf(a)) <= RECEIPT_LIMIT && Evident(a.result, a.bytes)
  }

  /** A finished snapshot of accepted output, durable but not yet linked durably. */
  function SnapshotOf(a: Accepted): Snapshot {
    Snapshot(Some(File(a.bytes, true)), Some(File(Canonical(ReceiptOf(a)), true)), true, false)
  }

  /** Everything that survives the loss of power. */
  predicate SameFiles(a: Snapshot, b: Snapshot) {
    a.(linked := false) == b.(linked := false)
  }

  /** Two outputs with one identity are the same output, bytes included. */
  lemma IdentityFixesOutput(a: Accepted, b: Accepted)
    requires NameOf(a) == NameOf(b) && Evident(a.result, a.bytes) && Evident(b.result, b.bytes)
    ensures a == b
  {
  }

  lemma ReopenedIsNamed(size: Receipt -> nat, root: Root, id: Identity, p: Recipe)
    requires Reopened(size, root, id, p).Some?
    ensures var a := Reopened(size, root, id, p).value;
            NameOf(a) == id && Persistable(size, a, p)
  {
  }

  // ---- Without interference

  class CheckpointStore {
    var root: Root
    const size: Receipt -> nat

    constructor (root: Root, size: Receipt -> nat)
      ensures this.root == root && this.size == size
    {
      this.root, this.size := root, size;
    }

    /** `reopen_blocking`: the root check syncs the root, then receipt and bytes are
        validated and copied out. `chunks` is how the stored bytes are read. */
    method Reopen(id: Identity, p: Recipe, chunks: seq<seq<byte>>) returns (r: Option<Accepted>)
      requires id in root && root[id].output.Some? ==> Flatten(chunks) == root[id].output.value.content
      modifies this
      ensures r == Reopened(size, old(root), id, p) && root == Synced(old(root))
    {
      root := Synced(root);
      if id !in root || root[id].receipt.None? || !root[id].receipt.value.content.Canonical? {
        return None;
      }
      var receipt := root[id].receipt.value.content.receipt;
      if size(receipt) > RECEIPT_LIMIT || Identity(receipt) != id || !Valid(receipt, p) || root[id].output.None? {
        return None;
      }
      var retained := Measured.MeasureCopy(chunks, [], receipt.result.byteLength, receipt.result.sha);
      if retained.None? {
        return None;
      }
      return Some(Publication.Output(receipt.processing, receipt.invocation, receipt.result, retained.value));
    }

    /** `persist_blocking`: succeeds exactly for persistable output whose name is free
        or already holds it; nothing present is replaced, and on success the name is
        durable and reopens to the output. */
    method Persist(a: Accepted, p: Recipe, chunks: seq<seq<byte>>, stored: seq<seq<byte>>) returns (r: Option<Identity>)
      requires Flatten(chunks) == a.bytes
      requires NameOf(a) in root && root[NameOf(a)].output.Some? ==> Flatten(stored) == root[NameOf(a)].output.value.content
      modifies this
      ensures r.Some? <==> Persistable(size, a, p) && (NameOf(a) in old(root) ==> Reopened(size, old(root), NameOf(a), p).Some?)
      ensures r.Some? ==> r.value == NameOf(a) && Reopened(size, root, NameOf(a), p) == Some(a) && root[NameOf(a)].linked
      ensures root.Keys == old(root).Keys + if r.Some? then {NameOf(a)} else {}
      ensures forall id :: id in old(root) ==> root[id] == old(root)[id].(linked := true)
    {
      root := Synced(root);
      var receipt := ReceiptOf(a);
      if !Valid(receipt, p) || size(receipt) > RECEIPT_LIMIT {
        return None;
      }
      var copied := Measured.MeasureCopy(chunks, [], a.result.byteLength, a.result.sha);
      if copied.None? {
        return None;
      }
      var temporary := Snapshot(Some(File(copied.value, false)), None, false, false);
      temporary := temporary.(output := Some(File(copied.value, true)));
      temporary := temporary.(receipt := Some(File(Canonical(receipt), true)));
      temporary := temporary.(synced := true);
      var destination := Identity(receipt);
      if destination in root {
        var reopened := Reopen(destination, p, stored);
        if reopened.None? {
          return None;
        }
        IdentityFixesOutput(reopened.value, a);
      } else {
        root := root[destination := temporary];
      }
      root := Synced(root);
      return Some(destination);
    }
  }

  // ---- Many producers, crashes and power loss

  datatype Phase =
    | Begin
    | Copying
    | Copied
    | PayloadSynced
    | ReceiptWritten
    | ReceiptSynced
    | DirectorySynced
    | Renaming
    | Reopening
    | Committed
    | Returned

  datatype Producer = Producer(p: Recipe, a: Accepted, temporary: Snapshot, phase: Phase)

  datatype State = State(size: Receipt -> nat, root: Root, producers: map<nat, Producer>)

  datatype Event =
    | Start(n: nat, p: Recipe, a: Accepted)
    | Write(n: nat, count: nat)
    | Advance(n: nat)
    | Stop(n: nat)
    | PowerLoss(kept: set<Identity>, damage: map<Identity, Snapshot>)

  const EMPTY := Snapshot(None, None, false, false)

  function With(s: State, n: nat, producer: Producer): State {
    s.(producers := s.producers[n := producer])
  }

  function Without(s: State, n: nat): State {
    s.(producers := s.producers - {n})
  }

  /** A rename onto a directory that holds anything fails. */
  predicate Vacant(root: Root, id: Identity) {
    id !in root || (root[id].output.None? && root[id].receipt.None?)
  }

  /** The steps inside the temporary directory once the payload is in it: sync it, write
      the receipt, sync that, sync the directory. */
  function Settle(r: Producer): Producer {
    var t := r.temporary;
    match r.phase
    case Copied =>
      if t.output.None? then r else r.(temporary := t.(output := Some(t.output.value.(synced := true))), phase := PayloadSynced)
    case PayloadSynced =>
      r.(temporary := t.(receipt := Some(File(Canonical(ReceiptOf(r.a)), false))), phase := ReceiptWritten)
    case ReceiptWritten =>
      if t.receipt.None? then r else r.(temporary := t.(receipt := Some(t.receipt.value.(synced := true))), phase := ReceiptSynced)
    case ReceiptSynced => r.(temporary := t.(synced := true), phase := DirectorySynced)
    case _ => r
  }

  /** One step of `persist_blocking`. */
  function Step(s: State, n: nat): State
    requires n in s.producers
  {
    var r := s.producers[n];
    var t, id := r.temporary, NameOf(r.a);
    match r.phase
    case Begin =>
      var checked := s.(root := Synced(s.root));
      if Valid(ReceiptOf(r.a), r.p) && s.size(ReceiptOf(r.a)) <= RECEIPT_LIMIT
      then With(checked, n, r.(temporary := EMPTY.(output := Some(File([], false))), phase := Copying))
      else Without(checked, n)
    case Copying =>
      if t.output.Some? && t.output.value.content == r.a.bytes && Evident(r.a.result, r.a.bytes)
      then With(s, n, r.(phase := Copied)) else Without(s, n)
    case DirectorySynced =>
      With(s, n, r.(phase := if id in s.root then Reopening else Renaming))
    case Renaming =>
      if Vacant(s.root, id) then With(s.(root := s.root[id := t]), n, r.(phase := Committed))
      else With(s, n, r.(phase := Reopening))
    case Reopening =>
      var checked := s.(root := Synced(s.root));
      if Reopened(s.size, s.root, id, r.p).Some? then With(checked, n, r.(phase := Committed)) else Without(checked, n)
    case Committed =>
      With(s.(root := Synced(s.root)), n, r.(phase := Returned))
    case Returned => s
    case _ => With(s, n, Settle(r))
  }

  /** What a power loss leaves: entries not linked durably may be gone, and a snapshot
      that was not synced may hold anything. */
  function Surviving(root: Root, kept: set<Identity>, damage: map<Identity, Snapshot>): Root {
    map id | id in root && (root[id].linked || id in kept) ::
      (if Durable(root[id]) || id !in damage then root[id] else damage[id]).(linked := true)
  }

  /** An entry survives exactly if it was linked durably or happened to be kept, and holds
      what it held exactly if its files and its own entries were synced; otherwise it may
      hold anything at all. */
  lemma SurvivingExact(root: Root, kept: set<Identity>, damage: map<Identity, Snapshot>, id: Identity)
    ensures var after := Surviving(root, kept, damage);
            && (id in after <==> id in root && (root[id].linked || id in kept))
            && (id in after ==>
                  var before := root[id];
                  var safe := before.synced && (before.output.None? || before.output.value.synced)
                              && (before.receipt.None? || before.receipt.value.synced);
                  after[id] == (if !safe && id in damage then damage[id] else before).(linked := true))
  {
  }

  function Next(s: State, e: Event): State {
    match e
    case Start(n, p, a) => if n in s.producers then s else With(s, n, Producer(p, a, EMPTY, Begin))
    case Write(n, count) =>
      if n in s.producers && s.producers[n].phase.Copying? && s.producers[n].temporary.output.Some? then
        var r := s.producers[n];
        var written := |r.temporary.output.value.content|;
        if written + count <= |r.a.bytes|
        then With(s, n, r.(temporary := r.temporary.(output := Some(File(r.a.bytes[..written + count], false)))))
        else s
      else s
    case Advance(n) => if n in s.producers then Step(s, n) else s
    case Stop(n) => Without(s, n)
    case PowerLoss(kept, damage) => s.(root := Surviving(s.root, kept, damage), producers := map[])
  }

  function At(init: State, es: seq<Event>, i: nat): State
    requires i <= |es|
  {
    if i == 0 then init else Next(At(init, es, i - 1), es[i - 1])
  }

  /** Before the run everything on disk has settled; it may well be malformed. */
  predicate Settled(init: State) {
    init.producers == map[] && forall id :: id in init.root ==> Durable(init.root[id]) && init.root[id].linked
  }

  // ---- The invariant

  /** A directory that holds what its name says. */
  predicate Complete(size: Receipt -> nat, id: Identity, s: Snapshot) {
    && s.receipt.Some? && s.receipt.value.content == Canonical(id.receipt)
    && s.output.Some? && Evident(id.receipt.result, s.output.value.content)
    && size(id.receipt) <= RECEIPT_LIMIT
    && Durable(s)
  }

  predicate Holds(s: State, r: Producer) {
    && NameOf(r.a) in s.root
    && Reopened(s.size, s.root, NameOf(r.a), r.p) == Some(r.a)
    && Durable(s.root[NameOf(r.a)])
  }

  /** How far a producer has come, and that its output was fit to keep. */
  predicate ProducerOk(initial: Root, s: State, r: Producer) {
    var t, a := r.temporary, r.a;
    && (!r.phase.Begin? ==> Valid(ReceiptOf(a), r.p) && s.size(ReceiptOf(a)) <= RECEIPT_LIMIT)
    && (r.phase.Copying? ==> t.output.Some? && t.output.value.content <= a.bytes)
    && (!r.phase.Begin? && !r.phase.Copying? ==> Evident(a.result, a.bytes) && t.output.Some? && t.output.value.content == a.bytes)
    && (r.phase.Begin? || r.phase.Copying? || r.phase.Copied? || t.output.value.synced)
    && (r.phase.ReceiptWritten? ==> t.receipt.Some? && t.receipt.value.content == Canonical(ReceiptOf(a)))
    && (r.phase.ReceiptSynced? ==> t.receipt == Some(File(Canonical(ReceiptOf(a)), true)))
    && (r.phase.DirectorySynced? || r.phase.Renaming? ==> t.(linked := false) == SnapshotOf(a))
    && (r.phase.Renaming? ==> NameOf(a) !in initial)
    && (r.phase.Reopening? ==> NameOf(a) in s.root)
    && (!r.phase.Begin? ==> !t.linked)
    && (r.phase.Committed? || r.phase.Returned? ==> Holds(s, r))
    && (r.phase.Returned? ==> s.root[NameOf(a)].linked)
  }

  predicate RootOk(initial: Root, s: State) {
    && (forall id :: id in initial ==> id in s.root && s.root[id] == initial[id])
    && (forall id :: id in s.root && id !in initial ==> Complete(s.size, id, s.root[id]))
  }

  ghost predicate Inv(initial: Root, s: State) {
    && (forall id :: id in initial ==> Durable(initial[id]) && initial[id].linked)
    && RootOk(initial, s)
    && (forall n :: n in s.producers ==> ProducerOk(initial, s, s.producers[n]))
  }

  /** From one state to a later one: entries keep their files, and durably linked
      ones stay. */
  ghost predicate Keeps(before: State, after: State) {
    && after.size == before.size
    && (forall id :: id in before.root && id in after.root ==> SameFiles(before.root[id], after.root[id]))
    && (forall id :: id in before.root && before.root[id].linked ==> id in after.root && after.root[id].linked)
  }

  /** Nothing vanished in between either. */
  ghost predicate Grows(before: State, after: State) {
    Keeps(before, after) && forall id :: id in before.root ==> id in after.root
  }

  lemma SameFilesReopenAlike(size: Receipt -> nat, a: Root, b: Root, id: Identity, p: Recipe)
    requires id in a && id in b && SameFiles(a[id], b[id])
    ensures Reopened(size, a, id, p) == Reopened(size, b, id, p) && Durable(a[id]) == Durable(b[id])
  {
  }

  lemma OthersStayOk(initial: Root, s: State, s2: State, r: Producer)
    requires ProducerOk(initial, s, r) && Grows(s, s2)
    ensures ProducerOk(initial, s2, r)
  {
    if r.phase.Committed? || r.phase.Returned? {
      SameFilesReopenAlike(s.size, s.root, s2.root, NameOf(r.a), r.p);
    }
  }

  lemma EntriesAreDurable(initial: Root, s: State, id: Identity)
    requires Inv(initial, s) && id in s.root
    ensures Durable(s.root[id])
  {
    if id in initial {
      assert s.root[id] == initial[id];
    } else {
      assert Complete(s.size, id, s.root[id]);
    }
  }

  /** A producer about to rename finds its name free or completely taken. */
  lemma VacantMeansFree(initial: Root, s: State, n: nat)
    requires Inv(initial, s) && n in s.producers && s.producers[n].phase.Renaming?
    requires Vacant(s.root, NameOf(s.producers[n].a))
    ensures NameOf(s.producers[n].a) !in s.root
  {
    var id := NameOf(s.producers[n].a);
    assert ProducerOk(initial, s, s.producers[n]);
    assert id in s.root ==> Complete(s.size, id, s.root[id]);
  }

  lemma SurvivorsAreIntact(initial: Root, s: State, kept: set<Identity>, damage: map<Identity, Snapshot>)
    requires Inv(initial, s)
    ensures var root := Surviving(s.root, kept, damage);
            && (forall id :: id in root ==> id in s.root && root[id] == s.root[id].(linked := true))
            && (forall id :: id in s.root && s.root[id].linked ==> id in root)
  {
    hide Reopened, Valid, Inv, Complete;
    var root := Surviving(s.root, kept, damage);
    forall id | id in root ensures id in s.root && root[id] == s.root[id].(linked := true) {
      EntriesAreDurable(initial, s, id);
    }
  }

  lemma SurvivorsAreOk(initial: Root, s: State, root: Root)
    requires RootOk(initial, s) && forall id :: id in initial ==> initial[id].linked
    requires forall id :: id in root ==> id in s.root && root[id] == s.root[id].(linked := true)
    requires forall id :: id in s.root && s.root[id].linked ==> id in root
    ensures RootOk(initial, s.(root := root, producers := map[]))
  {
    forall id | id in root && id !in initial ensures Complete(s.size, id, root[id]) {
      assert Complete(s.size, id, s.root[id]);
    }
  }

  lemma PowerLossKeeps(initial: Root, s: State, kept: set<Identity>, damage: map<Identity, Snapshot>)
    requires Inv(initial, s)
    ensures Keeps(s, Next(s, PowerLoss(kept, damage))) && Inv(initial, Next(s, PowerLoss(kept, damage)))
  {
    hide Complete, RootOk, ProducerOk, Surviving;
    SurvivorsAreIntact(initial, s, kept, damage);
    SurvivorsAreOk(initial, s, Surviving(s.root, kept, damage));
  }

  lemma StepGrows(initial: Root, s: State, n: nat)
    requires Inv(initial, s) && n in s.producers
    ensures Grows(s, Step(s, n))
  {
    hide Reopened, Valid, Complete;
    var r := s.producers[n];
    if r.phase.Renaming? && Vacant(s.root, NameOf(r.a)) {
      VacantMeansFree(initial, s, n);
    }
  }

  lemma RenameIsComplete(initial: Root, s: State, r: Producer)
    requires ProducerOk(initial, s, r) && r.phase.Renaming?
    ensures Complete(s.size, NameOf(r.a), r.temporary)
    ensures var s2 := s.(root := s.root[NameOf(r.a) := r.temporary]); Holds(s2, r)
  {
  }

  /** The only steps that touch the root sync it or rename into it. */
  lemma StepRoot(s: State, n: nat)
    requires n in s.producers
    ensures Step(s, n).size == s.size
    ensures var r, root := s.producers[n], Step(s, n).root;
            if r.phase.Renaming? && Vacant(s.root, NameOf(r.a)) then root == s.root[NameOf(r.a) := r.temporary]
            else root == s.root || root == Synced(s.root)
  {
    hide Reopened, Valid;
  }

  lemma SyncKeepsRoot(initial: Root, s: State, s2: State)
    requires Inv(initial, s) && s2.size == s.size && (s2.root == s.root || s2.root == Synced(s.root))
    ensures RootOk(initial, s2)
  {
    forall id | id in s2.root && id !in initial ensures Complete(s2.size, id, s2.root[id]) {
      assert Complete(s.size, id, s.root[id]);
    }
  }

  lemma StepKeepsRoot(initial: Root, s: State, n: nat)
    requires Inv(initial, s) && n in s.producers
    ensures RootOk(initial, Step(s, n))
  {
    hide Step, Complete;
    var r := s.producers[n];
    assert ProducerOk(initial, s, r);
    StepRoot(s, n);
    if r.phase.Renaming? && Vacant(s.root, NameOf(r.a)) {
      VacantMeansFree(initial, s, n);
      RenameIsComplete(initial, s, r);
    } else {
      SyncKeepsRoot(initial, s, Step(s, n));
    }
  }

  /** Reopening under the right name returns the producer's own output. */
  lemma ReopeningFindsOwnOutput(s: State, r: Producer)
    requires Evident(r.a.result, r.a.bytes) && Reopened(s.size, s.root, NameOf(r.a), r.p).Some?
    ensures Reopened(s.size, s.root, NameOf(r.a), r.p) == Some(r.a)
  {
    ReopenedIsNamed(s.size, s.root, NameOf(r.a), r.p);
    IdentityFixesOutput(Reopened(s.size, s.root, NameOf(r.a), r.p).value, r.a);
  }

  lemma RenamingStaysOk(initial: Root, s: State, n: nat)
    requires Inv(initial, s) && n in s.producers && s.producers[n].phase.Renaming?
    ensures n in Step(s, n).producers && ProducerOk(initial, Step(s, n), Step(s, n).producers[n])
  {
    hide Valid;
    var r := s.producers[n];
    assert ProducerOk(initial, s, r);
    if Vacant(s.root, NameOf(r.a)) {
      RenameIsComplete(initial, s, r);
      SameFilesReopenAlike(s.size, Step(s, n).root, s.root[NameOf(r.a) := r.temporary], NameOf(r.a), r.p);
    }
    hide Reopened, Inv;
  }

  lemma ReopeningStaysOk(initial: Root, s: State, n: nat)
    requires Inv(initial, s) && n in s.producers && s.producers[n].phase.Reopening? && n in Step(s, n).producers
    ensures ProducerOk(initial, Step(s, n), Step(s, n).producers[n])
  {
    hide Valid, Reopened;
    var r := s.producers[n];
    assert ProducerOk(initial, s, r);
    ReopeningFindsOwnOutput(s, r);
    NamedMeansPresent(s, NameOf(r.a), r.p);
    EntriesAreDurable(initial, s, NameOf(r.a));
    SameFilesReopenAlike(s.size, s.root, Synced(s.root), NameOf(r.a), r.p);
  }

  lemma NamedMeansPresent(s: State, id: Identity, p: Recipe)
    requires Reopened(s.size, s.root, id, p).Some?
    ensures id in s.root
  {
  }

  lemma CommittedStaysOk(initial: Root, s: State, n: nat)
    requires Inv(initial, s) && n in s.producers && s.producers[n].phase.Committed?
    ensures n in Step(s, n).producers && ProducerOk(initial, Step(s, n), Step(s, n).producers[n])
  {
    hide Valid, Reopened;
    var r := s.producers[n];
    assert ProducerOk(initial, s, r);
    SameFilesReopenAlike(s.size, s.root, Synced(s.root), NameOf(r.a), r.p);
  }

  lemma EarlyStaysOk(initial: Root, s: State, n: nat)
    requires Inv(initial, s) && n in s.producers && n in Step(s, n).producers
    requires var phase := s.producers[n].phase; !phase.Renaming? && !phase.Reopening? && !phase.Committed? && !phase.Returned?
    ensures ProducerOk(initial, Step(s, n), Step(s, n).producers[n])
  {
    hide Valid, Reopened, Complete;
    assert ProducerOk(initial, s, s.producers[n]);
  }

  lemma {:induction false} ActorStaysOk(initial: Root, s: State, n: nat)
    requires Inv(initial, s) && n in s.producers && n in Step(s, n).producers
    ensures ProducerOk(initial, Step(s, n), Step(s, n).producers[n])
  {
    var phase := s.producers[n].phase;
    if phase.Returned? {
      assert Step(s, n) == s;
    } else {
      hide Step, ProducerOk;
      match phase
      case Renaming => RenamingStaysOk(initial, s, n);
      case Reopening => ReopeningStaysOk(initial, s, n);
      case Committed => CommittedStaysOk(initial, s, n);
      case _ => EarlyStaysOk(initial, s, n);
    }
  }

  lemma {:induction false} NextKeepsInv(initial: Root, s: State, e: Event)
    requires Inv(initial, s)
    ensures Inv(initial, Next(s, e)) && Keeps(s, Next(s, e))
  {
    match e
    case PowerLoss(kept, damage) => PowerLossKeeps(initial, s, kept, damage);
    case Advance(n) =>
      if n in s.producers {
        hide Next, ProducerOk, RootOk, Complete, Step;
        AdvanceKeepsInv(initial, s, n);
      }
    case Start(n, p, a) => QuietKeepsInv(initial, s, e);
    case Write(n, count) => QuietKeepsInv(initial, s, e);
    case Stop(n) => QuietKeepsInv(initial, s, e);
  }

  lemma {:induction false} AdvanceKeepsInv(initial: Root, s: State, n: nat)
    requires Inv(initial, s) && n in s.producers
    ensures Inv(initial, Step(s, n)) && Keeps(s, Step(s, n))
  {
    var s2 := Step(s, n);
    StepTouchesOnly(s, n);
    StepGrows(initial, s, n);
    StepKeepsRoot(initial, s, n);
    hide Step, RootOk, ProducerOk;
    forall m | m in s2.producers ensures ProducerOk(initial, s2, s2.producers[m]) {
      if m == n {
        ActorStaysOk(initial, s, n);
      } else {
        OthersStayOk(initial, s, s2, s.producers[m]);
      }
    }
  }

  lemma StepTouchesOnly(s: State, n: nat)
    requires n in s.producers
    ensures forall m :: m in Step(s, n).producers && m != n ==> m in s.producers && Step(s, n).producers[m] == s.producers[m]
  {
    hide Reopened, Valid;
  }

  lemma QuietKeepsInv(initial: Root, s: State, e: Event)
    requires Inv(initial, s) && !e.PowerLoss? && !e.Advance?
    ensures Inv(initial, Next(s, e)) && Keeps(s, Next(s, e)) && Next(s, e).root == s.root
  {
    hide Reopened, Valid, Complete;
    var s2 := Next(s, e);
    forall m | m in s2.producers ensures ProducerOk(initial, s2, s2.producers[m]) {
      if m in s.producers {
        assert ProducerOk(initial, s, s.producers[m]);
      }
    }
  }

  lemma {:induction false} RunKeepsInv(init: State, es: seq<Event>, i: nat)
    requires Settled(init) && i <= |es|
    ensures Inv(init.root, At(init, es, i))
  {
    if i > 0 {
      hide Next;
      RunKeepsInv(init, es, i - 1);
      NextKeepsInv(init.root, At(init, es, i - 1), es[i - 1]);
    }
  }

  // ---- Over whole runs

  lemma StepKeeps(init: State, es: seq<Event>, i: nat)
    requires Settled(init) && i < |es|
    ensures Keeps(At(init, es, i), At(init, es, i + 1))
  {
    hide Next, Inv;
    RunKeepsInv(init, es, i);
    NextKeepsInv(init.root, At(init, es, i), es[i]);
  }

  /** A durably linked entry, however it came about, is there for ever, with the files
      it has. */
  lemma {:induction false} LinkedStays(init: State, es: seq<Event>, i: nat, j: nat, id: Identity)
    requires Settled(init) && i <= j <= |es|
    requires id in At(init, es, i).root && At(init, es, i).root[id].linked
    ensures id in At(init, es, j).root && At(init, es, j).root[id] == At(init, es, i).root[id]
  {
    hide At;
    if i < j {
      LinkedStays(init, es, i, j - 1, id);
      StepKeeps(init, es, j - 1);
      assert SameFiles(At(init, es, j - 1).root[id], At(init, es, j).root[id]);
    }
  }

  /** Nothing replaces an entry: the files under a name differ at two times only if the
      name was gone in between. */
  lemma {:induction false} NothingIsReplaced(init: State, es: seq<Event>, i: nat, j: nat, id: Identity)
    requires Settled(init) && i <= j <= |es|
    requires forall k :: i <= k <= j ==> id in At(init, es, k).root
    ensures SameFiles(At(init, es, i).root[id], At(init, es, j).root[id])
  {
    hide At;
    if i < j {
      NothingIsReplaced(init, es, i, j - 1, id);
      StepKeeps(init, es, j - 1);
      assert id in At(init, es, j - 1).root && id in At(init, es, j).root;
    }
  }

  /** However producers, crashes and power losses interleave, a name holds what was
      there before, or one directory whose receipt hashes to the name and whose bytes
      match the receipt. */
  lemma NamesHoldCompleteSnapshots(init: State, es: seq<Event>, i: nat, id: Identity)
    requires Settled(init) && i <= |es| && id in At(init, es, i).root
    ensures if id in init.root then At(init, es, i).root[id] == init.root[id]
            else Complete(At(init, es, i).size, id, At(init, es, i).root[id])
  {
    hide At;
    RunKeepsInv(init, es, i);
  }

  predicate ReturnedAt(s: State, n: nat) {
    n in s.producers && s.producers[n].phase.Returned?
  }

  /** A name `persist` returned reopens, from then on and whatever happens, to exactly
      the output that was persisted. */
  lemma ReturnedNamesReopen(init: State, es: seq<Event>, i: nat, j: nat, n: nat)
    requires Settled(init) && i <= j <= |es| && ReturnedAt(At(init, es, i), n)
    ensures var r := At(init, es, i).producers[n];
            Reopened(init.size, At(init, es, j).root, NameOf(r.a), r.p) == Some(r.a)
  {
    hide Next, Reopened;
    var r := At(init, es, i).producers[n];
    RunKeepsInv(init, es, i);
    assert ProducerOk(init.root, At(init, es, i), r);
    LinkedStays(init, es, i, j, NameOf(r.a));
    SizeIsFixed(init, es, i);
    SameFilesReopenAlike(init.size, At(init, es, i).root, At(init, es, j).root, NameOf(r.a), r.p);
  }

  lemma {:induction false} SizeIsFixed(init: State, es: seq<Event>, i: nat)
    requires Settled(init) && i <= |es|
    ensures At(init, es, i).size == init.size
  {
    if i > 0 {
      SizeIsFixed(init, es, i - 1);
      StepKeeps(init, es, i - 1);
    }
  }

  /** Producers that return one name, at whatever times, persisted one output. */
  lemma ProducersAgree(init: State, es: seq<Event>, i: nat, j: nat, n: nat, m: nat)
    requires Settled(init) && i <= |es| && j <= |es|
    requires ReturnedAt(At(init, es, i), n) && ReturnedAt(At(init, es, j), m)
    requires NameOf(At(init, es, i).producers[n].a) == NameOf(At(init, es, j).producers[m].a)
    ensures At(init, es, i).producers[n].a == At(init, es, j).producers[m].a
  {
    hide At;
    RunKeepsInv(init, es, i);
    RunKeepsInv(init, es, j);
    assert ProducerOk(init.root, At(init, es, i), At(init, es, i).producers[n]);
    assert ProducerOk(init.root, At(init, es, j), At(init, es, j).producers[m]);
    IdentityFixesOutput(At(init, es, i).producers[n].a, At(init, es, j).producers[m].a);
  }

  /** Malformed evidence under a name stays and blocks it: its producers fail. */
  lemma MalformedNamesAreNeverReturned(init: State, es: seq<Event>, i: nat, n: nat)
    requires Settled(init) && i <= |es| && n in At(init, es, i).producers
    requires var r := At(init, es, i).producers[n];
             NameOf(r.a) in init.root && Reopened(init.size, init.root, NameOf(r.a), r.p).None?
    ensures !ReturnedAt(At(init, es, i), n)
  {
    hide At, Reopened;
    var r, s := At(init, es, i).producers[n], At(init, es, i);
    RunKeepsInv(init, es, i);
    SizeIsFixed(init, es, i);
    assert ProducerOk(init.root, s, r);
    assert s.root[NameOf(r.a)] == init.root[NameOf(r.a)];
    SameFilesReopenAlike(init.size, init.root, s.root, NameOf(r.a), r.p);
  }

  // ---- Persisting after any history

  /** The state a producer reaches on its own in `k` steps. */
  function Alone(s: State, n: nat, k: nat): State
    decreases k
  {
    if k == 0 || n !in s.producers then s else Alone(Step(s, n), n, k - 1)
  }

  predicate PastCopy(phase: Phase) {
    !phase.Begin? && !phase.Copying?
  }

  /** An upper bound on the steps left. */
  function Left(phase: Phase): nat {
    match phase
    case Begin => 10
    case Copying => 9
    case Copied => 8
    case PayloadSynced => 7
    case ReceiptWritten => 6
    case ReceiptSynced => 5
    case DirectorySynced => 4
    case Renaming => 3
    case Reopening => 2
    case Committed => 1
    case Returned => 0
  }

  /** The producer is past its copy, and nothing malformed holds its name. */
  predicate Unblocked(s: State, n: nat) {
    n in s.producers &&
    var r := s.producers[n];
    && PastCopy(r.phase)
    && (r.phase.Copied? ==> r.temporary.output.Some?)
    && (r.phase.ReceiptWritten? ==> r.temporary.receipt.Some?)
    && (r.phase.Reopening? ==> NameOf(r.a) in s.root)
    && (NameOf(r.a) in s.root && Left(r.phase) > 1 ==> Reopened(s.size, s.root, NameOf(r.a), r.p).Some?)
  }

  lemma StepIsUnblocked(s: State, n: nat)
    requires Unblocked(s, n) && !s.producers[n].phase.Returned?
    ensures Unblocked(Step(s, n), n) && Left(Step(s, n).producers[n].phase) < Left(s.producers[n].phase)
  {
    hide Valid;
  }

  lemma {:induction false} UnblockedFinishes(s: State, n: nat, k: nat)
    requires Unblocked(s, n) && Left(s.producers[n].phase) <= k
    ensures ReturnedAt(Alone(s, n, k), n)
    decreases k
  {
    hide Unblocked;
    assert n in s.producers by { UnblockedIsThere(s, n); }
    if s.producers[n].phase.Returned? {
      ReturnedStays(s, n, k);
    } else {
      StepIsUnblocked(s, n);
      UnblockedIsThere(Step(s, n), n);
      hide Step;
      UnblockedFinishes(Step(s, n), n, k - 1);
    }
  }

  lemma UnblockedIsThere(s: State, n: nat)
    requires Unblocked(s, n)
    ensures n in s.producers
  {
  }

  lemma {:induction false} ReturnedStays(s: State, n: nat, k: nat)
    requires ReturnedAt(s, n)
    ensures Alone(s, n, k) == s
  {
    if k > 0 {
      assert Step(s, n) == s;
      ReturnedStays(s, n, k - 1);
    }
  }

  /** From any state a run can reach, a producer past its copy finishes by itself within
      eight steps, unless something that does not reopen holds its name: the checkpoint
      never wedges. */
  lemma CopiedProducersFinish(init: State, es: seq<Event>, i: nat, n: nat)
    requires Settled(init) && i <= |es| && n in At(init, es, i).producers
    requires var s, r := At(init, es, i), At(init, es, i).producers[n];
             && PastCopy(r.phase)
             && (NameOf(r.a) in s.root ==> Reopened(s.size, s.root, NameOf(r.a), r.p).Some?)
    ensures ReturnedAt(Alone(At(init, es, i), n, 8), n)
  {
    hide At, Reopened, Valid, Alone;
    RunKeepsInv(init, es, i);
    assert ProducerOk(init.root, At(init, es, i), At(init, es, i).producers[n]);
    UnblockedFinishes(At(init, es, i), n, 8);
  }

  // ---- A producer alone

  lemma {:induction false} AloneKeeps(initial: Root, s: State, n: nat, k: nat)
    requires Inv(initial, s)
    ensures Inv(initial, Alone(s, n, k)) && Grows(s, Alone(s, n, k))
    decreases k
  {
    hide Step, Next, Inv, SameFiles;
    GrowsReflexive(s);
    if k > 0 && n in s.producers {
      StepGrows(initial, s, n);
      NextKeepsInv(initial, s, Advance(n));
      AdvanceIsStep(s, n);
      AloneKeeps(initial, Step(s, n), n, k - 1);
      GrowsTransitive(s, Step(s, n), Alone(s, n, k));
    }
  }

  lemma AdvanceIsStep(s: State, n: nat)
    requires n in s.producers
    ensures Next(s, Advance(n)) == Step(s, n)
  {
    hide Step;
  }

  lemma GrowsReflexive(s: State)
    ensures Grows(s, s)
  {
  }

  lemma GrowsTransitive(a: State, b: State, c: State)
    requires Grows(a, b) && Grows(b, c)
    ensures Grows(a, c)
  {
  }

  /** The state in which a producer has just written its whole output. */
  function Written(s: State, n: nat, p: Recipe, a: Accepted): State {
    Next(Next(Next(s, Start(n, p, a)), Advance(n)), Write(n, |a.bytes|))
  }

  lemma WrittenExact(s: State, n: nat, p: Recipe, a: Accepted)
    requires n !in s.producers
    ensures var written := Written(s, n, p, a);
            && written.size == s.size && written.root == Synced(s.root)
            && if Valid(ReceiptOf(a), p) && s.size(ReceiptOf(a)) <= RECEIPT_LIMIT
               then n in written.producers && written.producers[n] == Producer(p, a, EMPTY.(output := Some(File(a.bytes, false))), Copying)
               else n !in written.producers
  {
    hide Valid;
    assert a.bytes[..|a.bytes|] == a.bytes;
  }

  lemma CopyEnds(s: State, n: nat, p: Recipe, a: Accepted)
    requires n in s.producers && s.producers[n] == Producer(p, a, EMPTY.(output := Some(File(a.bytes, false))), Copying)
    ensures var after := Step(s, n);
            && after.root == s.root && after.size == s.size
            && if Evident(a.result, a.bytes) then n in after.producers && after.producers[n] == s.producers[n].(phase := Copied)
               else n !in after.producers
  {
    hide Evident;
  }

  /** At any point of a run a new producer that is left alone returns if and only if its
      output is fit to keep and its name is free or reopens. */
  lemma {:induction false} PersistsAlone(init: State, es: seq<Event>, i: nat, n: nat, p: Recipe, a: Accepted)
    requires Settled(init) && i <= |es| && n !in At(init, es, i).producers
    ensures var s := At(init, es, i);
            ReturnedAt(Alone(Written(s, n, p, a), n, 9), n)
            <==> Persistable(s.size, a, p) && (NameOf(a) in s.root ==> Reopened(s.size, s.root, NameOf(a), p).Some?)
  {
    hide At, Step, Reopened, Valid, Evident, Alone, Inv;
    RunKeepsInv(init, es, i);
    var s, written := At(init, es, i), Written(At(init, es, i), n, p, a);
    WrittenExact(s, n, p, a);
    WrittenKeeps(init.root, s, n, p, a);
    hide Written;
    AbsentStays(written, n, 9);
    if n in written.producers {
      CopyEnds(written, n, p, a);
      AloneStep(written, n, 9);
      AbsentStays(Step(written, n), n, 8);
      if Evident(a.result, a.bytes) { CopiedReturns(init.root, s, written, n, p, a); }
    }
  }

  lemma AbsentStays(s: State, n: nat, k: nat)
    ensures n !in s.producers ==> Alone(s, n, k) == s
  {
  }

  lemma AloneStep(s: State, n: nat, k: nat)
    requires n in s.producers && k > 0
    ensures Alone(s, n, k) == Alone(Step(s, n), n, k - 1)
  {
    hide Step;
  }

  lemma {:induction false} WrittenKeeps(initial: Root, s: State, n: nat, p: Recipe, a: Accepted)
    requires Inv(initial, s)
    ensures Inv(initial, Written(s, n, p, a))
  {
    hide Inv, Next;
    NextKeepsInv(initial, s, Start(n, p, a));
    NextKeepsInv(initial, Next(s, Start(n, p, a)), Advance(n));
    NextKeepsInv(initial, Next(Next(s, Start(n, p, a)), Advance(n)), Write(n, |a.bytes|));
  }

  lemma SyncedReopensAlike(size: Receipt -> nat, root: Root, id: Identity, p: Recipe)
    requires id in root
    ensures Reopened(size, Synced(root), id, p) == Reopened(size, root, id, p)
  {
    SameFilesReopenAlike(size, root, Synced(root), id, p);
  }

  lemma {:induction false} CopiedReturns(initial: Root, s: State, written: State, n: nat, p: Recipe, a: Accepted)
    requires Inv(initial, written) && n in written.producers && written.size == s.size && written.root == Synced(s.root)
    requires written.producers[n] == Producer(p, a, EMPTY.(output := Some(File(a.bytes, false))), Copying) && Evident(a.result, a.bytes)
    ensures ReturnedAt(Alone(Step(written, n), n, 8), n)
            <==> (NameOf(a) in s.root ==> Reopened(s.size, s.root, NameOf(a), p).Some?)
  {
    CopyEnds(written, n, p, a);
    NextKeepsInv(initial, written, Advance(n));
    AdvanceIsStep(written, n);
    var copied := Step(written, n);
    hide Step, Next, Reopened, Valid, Evident, Alone;
    if NameOf(a) in s.root { SyncedReopensAlike(s.size, s.root, NameOf(a), p); }
    if NameOf(a) in s.root ==> Reopened(s.size, s.root, NameOf(a), p).Some? {
      UnblockedFinishes(copied, n, 8);
    } else {
      AloneKeeps(initial, copied, n, 8);
      BlockedNeverReturns(initial, copied, n, 8, p, a);
    }
  }

  lemma {:induction false} BlockedNeverReturns(initial: Root, s: State, n: nat, k: nat, p: Recipe, a: Accepted)
    requires Inv(initial, Alone(s, n, k)) && Grows(s, Alone(s, n, k))
    requires n in s.producers && s.producers[n].p == p && s.producers[n].a == a
    requires NameOf(a) in s.root && Reopened(s.size, s.root, NameOf(a), p).None?
    ensures !ReturnedAt(Alone(s, n, k), n)
  {
    AloneIsOwn(s, n, k);
    hide Alone, Reopened;
    SameFilesReopenAlike(s.size, s.root, Alone(s, n, k).root, NameOf(a), p);
    ReturnedReopens(initial, Alone(s, n, k), n);
  }

  lemma ReturnedReopens(initial: Root, s: State, n: nat)
    requires Inv(initial, s)
    ensures ReturnedAt(s, n) ==>
              var r := s.producers[n];
              NameOf(r.a) in s.root && Reopened(s.size, s.root, NameOf(r.a), r.p) == Some(r.a)
  {
    hide Reopened;
    assert n in s.producers ==> ProducerOk(initial, s, s.producers[n]);
  }

  lemma {:induction false} AloneIsOwn(s: State, n: nat, k: nat)
    requires n in s.producers
    ensures var after := Alone(s, n, k);
            n in after.producers ==> after.producers[n].p == s.producers[n].p && after.producers[n].a == s.producers[n].a
    decreases k
  {
    if k > 0 {
      StepIsOwn(s, n);
      hide Step;
      if n in Step(s, n).producers { AloneIsOwn(Step(s, n), n, k - 1); }
    }
  }

  lemma StepIsOwn(s: State, n: nat)
    requires n in s.producers
    ensures n in Step(s, n).producers ==> Step(s, n).producers[n].p == s.producers[n].p && Step(s, n).producers[n].a == s.producers[n].a
  {
    hide Reopened, Valid, Evident;
  }
}
