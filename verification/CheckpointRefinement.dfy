/** The checkpoint directory under the project protocol: there, persisting is one
    atomic step on a map of snapshots that only grows. Here, the directory protocol is
    shown to provide that map, crashes and power losses included. */
module CheckpointRefinement {
  import opened Core
  import opened Artifacts
  import Publication
  import Checkpoint
  import ProjectProtocol
  import PublicationContract

  /** The directory a snapshot identity names. */
  function IdentityOf(id: ProjectProtocol.SnapshotId): Checkpoint.Identity {
    Checkpoint.Identity(Checkpoint.Receipt(1, id.processing, id.invocation, id.result))
  }

  /** The bytes a state keeps for good under a snapshot identity. */
  function Retained(s: Checkpoint.State, id: ProjectProtocol.SnapshotId): Option<seq<byte>> {
    var name := IdentityOf(id);
    if name !in s.root || !s.root[name].linked then None
    else
      var reopened := Checkpoint.Reopened(s.size, s.root, name, id.processing.recipe);
      if reopened.None? then None else Some(reopened.value.bytes)
  }

  /** The map only grows: what is retained stays, byte for byte. */
  lemma RetainedStays(init: Checkpoint.State, es: seq<Checkpoint.Event>, i: nat, j: nat, id: ProjectProtocol.SnapshotId)
    requires Checkpoint.Settled(init) && i <= j <= |es|
    requires Retained(Checkpoint.At(init, es, i), id).Some?
    ensures Retained(Checkpoint.At(init, es, j), id) == Retained(Checkpoint.At(init, es, i), id)
  {
    hide Checkpoint.At, Checkpoint.Valid;
    Checkpoint.LinkedStays(init, es, i, j, IdentityOf(id));
    Checkpoint.SizeIsFixed(init, es, i);
    Checkpoint.SizeIsFixed(init, es, j);
  }

  /** What is retained satisfies what the project protocol expects of a snapshot: the
      declaration is allowed by the recipe and true of the bytes. The recipe's own
      length limit is below 2^63 by the validation of requests. */
  lemma RetainedIsSealed(s: Checkpoint.State, id: ProjectProtocol.SnapshotId)
    requires Retained(s, id).Some? && id.processing.recipe.maxByteLength < I64_LIMIT
    ensures Publication.Sealed(id.processing.recipe, Publication.Output(id.processing, id.invocation, id.result, Retained(s, id).value))
  {
    Checkpoint.ReopenedIsNamed(s.size, s.root, IdentityOf(id), id.processing.recipe);
  }

  /** `persist` returning is the atomic step: from then on the map holds exactly the
      persisted bytes under the identity the project protocol binds. */
  lemma {:induction false} ReturnedIsRetained(init: Checkpoint.State, es: seq<Checkpoint.Event>, i: nat, j: nat, n: nat)
    requires Checkpoint.Settled(init) && i <= j <= |es| && Checkpoint.ReturnedAt(Checkpoint.At(init, es, i), n)
    ensures var a := Checkpoint.At(init, es, i).producers[n].a;
            Retained(Checkpoint.At(init, es, j), ProjectProtocol.SnapshotOf(a)) == Some(a.bytes)
  {
    hide Checkpoint.At, Checkpoint.Reopened;
    Checkpoint.RunKeepsInv(init, es, i);
    var s := Checkpoint.At(init, es, i);
    var r := s.producers[n];
    assert Checkpoint.ProducerOk(init.root, s, r);
    Checkpoint.ReturnedNamesReopen(init, es, i, j, n);
    Checkpoint.LinkedStays(init, es, i, j, Checkpoint.NameOf(r.a));
    Checkpoint.SizeIsFixed(init, es, j);
  }

  /** Output is fit to keep exactly if it is of this processing and invocation, its result
      truly declares it, and its receipt is within a mebibyte. */
  lemma PersistableExact(size: Checkpoint.Receipt -> nat, a: Checkpoint.Accepted, p: Recipe)
    ensures Checkpoint.Persistable(size, a, p)
            <==> && a.processing == ProcessingHash(p) && a.invocation == p.document.invocation.identity
                 && PublicationContract.Declares(p, a.result, a.bytes)
                 && size(Checkpoint.Receipt(1, a.processing, a.invocation, a.result)) <= 1_048_576
  {
  }

  /** A directory reopens to an output exactly if that is fit to keep, the name is the hash
      of its receipt, and the two files hold the receipt's text and the bytes. */
  lemma ReopenedExact(size: Checkpoint.Receipt -> nat, root: Checkpoint.Root, id: Checkpoint.Identity, p: Recipe, a: Checkpoint.Accepted)
    ensures Checkpoint.Reopened(size, root, id, p) == Some(a)
            <==> && id in root && Checkpoint.Persistable(size, a, p)
                 && id == Checkpoint.Identity(Checkpoint.Receipt(1, a.processing, a.invocation, a.result))
                 && root[id].receipt.Some? && root[id].receipt.value.content == Checkpoint.Canonical(id.receipt)
                 && root[id].output.Some? && root[id].output.value.content == a.bytes
  {
  }
}
