/**
 The row triggers over integration batches, their members, repair operations and project
 leases.  A database is four maps of rows; one write attempt changes one row, and only if every
 trigger and key constraint on its table accepts it.  A nullable column is an Option, so SQL's
 IS DISTINCT FROM is !=.
 */
module IntegrationBatches {
  import opened Options

  datatype Lifecycle =
    | Sealing | Sealed | Building | Testing | Repairing | HumanBlocked | Promoting
    | CleanupPending | Promoted | Aborted | Failed | Empty

  /** The ten columns that freeze when a batch leaves 'sealing'; the two snapshots are compared
      as text. */
  datatype BatchIdentity = BatchIdentity(
    projectId: string, repositoryId: string, requestId: string, trigger: Option<string>,
    sourceManifestDigest: string, baseSha: Option<string>, integrationBranch: Option<string>,
    policySnapshot: string, artifactSnapshot: string, createdAt: real)

  datatype Batch = Batch(lifecycle: Lifecycle, currentRevision: int, identity: BatchIdentity, rest: string)
  datatype MemberKey = MemberKey(batchId: string, ordinal: int)
  datatype RepairOperation = RepairOperation(batchId: Option<string>, activeStage: int, rest: string)
  datatype Lease = Lease(batchId: string, fenceToken: int, rest: string)

  datatype Tables = Tables(
    batches: map<string, Batch>,
    members: map<MemberKey, string>,
    repairs: map<string, RepairOperation>,
    leases: map<string, Lease>)

  /** One write attempt. An UPDATE may move a row to another primary key. */
  datatype Write =
    | InsertBatch(id: string, batch: Batch)
    | UpdateBatch(id: string, newId: string, batch: Batch)
    | DeleteBatch(id: string)
    | InsertMember(key: MemberKey, member: string)
    | UpdateMember(key: MemberKey, newKey: MemberKey, member: string)
    | DeleteMember(key: MemberKey)
    | InsertRepair(id: string, repair: RepairOperation)
    | UpdateRepair(id: string, newId: string, repair: RepairOperation)
    | DeleteRepair(id: string)
    | InsertLease(project: string, lease: Lease)
    | UpdateLease(project: string, newProject: string, lease: Lease)
    | DeleteLease(project: string)

  // ----- What the triggers promise, write by write -----

  predicate HasLifecycle(t: Tables, id: string, lifecycle: Lifecycle) {
    id in t.batches && t.batches[id].lifecycle == lifecycle
  }

  /** Some row of another table points at the batch. */
  predicate Referenced(t: Tables, id: string) {
    || (exists k :: k in t.members && k.batchId == id)
    || (exists r :: r in t.repairs && t.repairs[r].batchId == Some(id))
    || (exists p :: p in t.leases && t.leases[p].batchId == id)
  }

  /** The table constraint that ties the two late identity columns to the lifecycle. */
  predicate EmptyIdentityCheck(b: Batch) {
    && (b.lifecycle == Empty ==> b.identity.baseSha.None? && b.identity.integrationBranch.None?)
    && (b.lifecycle != Empty ==> b.identity.baseSha.Some? && b.identity.integrationBranch.Some?)
  }

  /** A moved or new row needs a free primary key. */
  predicate KeyFree<K, R>(rows: map<K, R>, key: K, newKey: K) {
    newKey == key || newKey !in rows
  }

  predicate BatchUpdateAllowed(before: Batch, after: Batch) {
    && before.currentRevision <= after.currentRevision
    && (before.identity == after.identity || (before.lifecycle == Sealing && after.lifecycle == Sealing))
    && (after.lifecycle == Sealing ==> before.lifecycle == Sealing)
  }

  predicate TargetAllowed(t: Tables, batchId: Option<string>) {
    batchId.Some? ==> !HasLifecycle(t, batchId.value, Empty)
  }

  predicate Accepts(t: Tables, w: Write) {
    match w
    case InsertBatch(id, b) =>
      id !in t.batches && EmptyIdentityCheck(b) && (b.lifecycle == Empty ==> !Referenced(t, id))
    case UpdateBatch(id, newId, b) =>
      id in t.batches ==>
        && KeyFree(t.batches, id, newId) && EmptyIdentityCheck(b)
        && BatchUpdateAllowed(t.batches[id], b)
        && (b.lifecycle == Empty ==> !Referenced(t, newId))
    case InsertMember(key, _) =>
      key !in t.members && HasLifecycle(t, key.batchId, Sealing)
    case UpdateMember(key, newKey, _) =>
      key in t.members ==>
        && KeyFree(t.members, key, newKey)
        && HasLifecycle(t, key.batchId, Sealing) && HasLifecycle(t, newKey.batchId, Sealing)
    case DeleteMember(key) =>
      key in t.members ==> HasLifecycle(t, key.batchId, Sealing)
    case InsertRepair(id, r) =>
      id !in t.repairs && TargetAllowed(t, r.batchId)
    case UpdateRepair(id, newId, r) =>
      id in t.repairs ==>
        && KeyFree(t.repairs, id, newId) && TargetAllowed(t, r.batchId)
        && t.repairs[id].activeStage <= r.activeStage
    case InsertLease(project, l) =>
      project !in t.leases && TargetAllowed(t, Some(l.batchId))
    case UpdateLease(project, newProject, l) =>
      project in t.leases ==>
        && KeyFree(t.leases, project, newProject) && TargetAllowed(t, Some(l.batchId))
        && t.leases[project].fenceToken <= l.fenceToken
    case _ => true
  }

  /** An UPDATE of a row that is not there touches nothing. */
  function Moved<K, R>(rows: map<K, R>, key: K, newKey: K, row: R): map<K, R> {
    if key in rows then (rows - {key})[newKey := row] else rows
  }

  function Written(t: Tables, w: Write): Tables {
    match w
    case InsertBatch(id, b) => t.(batches := t.batches[id := b])
    case UpdateBatch(id, newId, b) => t.(batches := Moved(t.batches, id, newId, b))
    case DeleteBatch(id) => t.(batches := t.batches - {id})
    case InsertMember(key, m) => t.(members := t.members[key := m])
    case UpdateMember(key, newKey, m) => t.(members := Moved(t.members, key, newKey, m))
    case DeleteMember(key) => t.(members := t.members - {key})
    case InsertRepair(id, r) => t.(repairs := t.repairs[id := r])
    case UpdateRepair(id, newId, r) => t.(repairs := Moved(t.repairs, id, newId, r))
    case DeleteRepair(id) => t.(repairs := t.repairs - {id})
    case InsertLease(p, l) => t.(leases := t.leases[p := l])
    case UpdateLease(p, newP, l) => t.(leases := Moved(t.leases, p, newP, l))
    case DeleteLease(p) => t.(leases := t.leases - {p})
  }

  /** RAISE aborts the write and leaves every table as it was. */
  function Step(t: Tables, w: Write): Tables {
    if Accepts(t, w) then Written(t, w) else t
  }

  function After(t: Tables, writes: seq<Write>): Tables {
    if writes == [] then t else Step(After(t, writes[..|writes| - 1]), writes[|writes| - 1])
  }

  // ----- The triggers themselves -----

  datatype TgOp = Insert | Update | Delete

  class IntegrationStore {
    var batches: map<string, Batch>
    var members: map<MemberKey, string>
    var repairs: map<string, RepairOperation>
    var leases: map<string, Lease>

    function State(): Tables
      reads this
    {
      Tables(batches, members, repairs, leases)
    }

    constructor ()
      ensures State() == Tables(map[], map[], map[], map[])
    {
      batches, members, repairs, leases := map[], map[], map[], map[];
    }

    /** integration_member_is_mutable */
    method MemberIsMutable(op: TgOp, old_: Option<MemberKey>, new_: Option<MemberKey>) returns (raised: bool)
      requires op != Insert ==> old_.Some?
      requires op != Delete ==> new_.Some?
      ensures !raised <==>
        && (op != Insert ==> HasLifecycle(State(), old_.value.batchId, Sealing))
        && (op != Delete ==> HasLifecycle(State(), new_.value.batchId, Sealing))
    {
      if op != Insert {
        var b := old_.value.batchId;
        if !(b in batches && batches[b].lifecycle == Sealing) { return true; }
      }
      if op != Delete {
        var b := new_.value.batchId;
        if !(b in batches && batches[b].lifecycle == Sealing) { return true; }
      }
      return false;
    }

    /** integration_batch_identity_is_immutable, fired on INSERT and UPDATE */
    method BatchIdentityIsImmutable(old_: Option<Batch>, newId: string, new_: Batch) returns (raised: bool)
      ensures !raised <==>
        && (new_.lifecycle == Empty ==> !Referenced(State(), newId))
        && (old_.Some? ==>
              && (old_.value.identity == new_.identity
                  || (old_.value.lifecycle == Sealing && new_.lifecycle == Sealing))
              && (new_.lifecycle == Sealing ==> old_.value.lifecycle == Sealing))
    {
      if old_.Some? {
        var o := old_.value;
        if (o.lifecycle != Sealing || new_.lifecycle != Sealing) &&
           (|| new_.identity.projectId != o.identity.projectId
            || new_.identity.repositoryId != o.identity.repositoryId
            || new_.identity.requestId != o.identity.requestId
            || new_.identity.trigger != o.identity.trigger
            || new_.identity.sourceManifestDigest != o.identity.sourceManifestDigest
            || new_.identity.baseSha != o.identity.baseSha
            || new_.identity.integrationBranch != o.identity.integrationBranch
            || new_.identity.policySnapshot != o.identity.policySnapshot
            || new_.identity.artifactSnapshot != o.identity.artifactSnapshot
            || new_.identity.createdAt != o.identity.createdAt)
        {
          return true;
        }
        if o.lifecycle != Sealing && new_.lifecycle == Sealing { return true; }
      }
      if new_.lifecycle == Empty &&
         (|| (exists k :: k in members && k.batchId == newId)
          || (exists r :: r in repairs && repairs[r].batchId == Some(newId))
          || (exists p :: p in leases && leases[p].batchId == newId))
      {
        return true;
      }
      return false;
    }

    /** integration_empty_batch_target_rejected */
    method EmptyBatchTargetRejected(batchId: Option<string>) returns (raised: bool)
      ensures !raised <==> TargetAllowed(State(), batchId)
    {
      if batchId.Some? && batchId.value in batches && batches[batchId.value].lifecycle == Empty {
        return true;
      }
      return false;
    }

    // ----- One row write per statement -----

    method Execute(w: Write) returns (accepted: bool)
      modifies this
      ensures accepted == Accepts(old(State()), w)
      ensures State() == Step(old(State()), w)
    {
      match w
      case InsertBatch(id, b) => accepted := WriteBatch(None, id, b);
      case UpdateBatch(id, newId, b) =>
        if id in batches { accepted := WriteBatch(Some(id), newId, b); } else { accepted := true; }
      case DeleteBatch(id) =>
        batches := batches - {id};
        accepted := true;
      case InsertMember(key, m) => accepted := WriteMember(None, key, m);
      case UpdateMember(key, newKey, m) =>
        if key in members { accepted := WriteMember(Some(key), newKey, m); } else { accepted := true; }
      case DeleteMember(key) =>
        accepted := true;
        if key in members {
          var raised := MemberIsMutable(Delete, Some(key), None);
          accepted := !raised;
        }
        if accepted { members := members - {key}; }
      case InsertRepair(id, r) => accepted := WriteRepair(None, id, r);
      case UpdateRepair(id, newId, r) =>
        if id in repairs { accepted := WriteRepair(Some(id), newId, r); } else { accepted := true; }
      case DeleteRepair(id) =>
        repairs := repairs - {id};
        accepted := true;
      case InsertLease(project, l) => accepted := WriteLease(None, project, l);
      case UpdateLease(project, newProject, l) =>
        if project in leases { accepted := WriteLease(Some(project), newProject, l); } else { accepted := true; }
      case DeleteLease(project) =>
        leases := leases - {project};
        accepted := true;
    }

    method WriteBatch(oldId: Option<string>, id: string, b: Batch) returns (accepted: bool)
      requires oldId.Some? ==> oldId.value in batches
      modifies this`batches
      ensures
        var w := if oldId.Some? then UpdateBatch(oldId.value, id, b) else InsertBatch(id, b);
        accepted == Accepts(old(State()), w) && State() == Step(old(State()), w)
    {
      var before := if oldId.Some? then Some(batches[oldId.value]) else None;
      var kept := if oldId.Some? then batches - {oldId.value} else batches;
      var raised := BatchIdentityIsImmutable(before, id, b);
      if before.Some? {
        raised := raised || b.currentRevision < before.value.currentRevision;
      }
      accepted := !raised && EmptyIdentityCheck(b) && id !in kept;
      if accepted { batches := kept[id := b]; }
    }

    method WriteMember(oldKey: Option<MemberKey>, key: MemberKey, m: string) returns (accepted: bool)
      requires oldKey.Some? ==> oldKey.value in members
      modifies this`members
      ensures
        var w := if oldKey.Some? then UpdateMember(oldKey.value, key, m) else InsertMember(key, m);
        accepted == Accepts(old(State()), w) && State() == Step(old(State()), w)
    {
      var kept := if oldKey.Some? then members - {oldKey.value} else members;
      var raised := MemberIsMutable(if oldKey.Some? then Update else Insert, oldKey, Some(key));
      accepted := !raised && key !in kept;
      if accepted { members := kept[key := m]; }
    }

    method WriteRepair(oldId: Option<string>, id: string, r: RepairOperation) returns (accepted: bool)
      requires oldId.Some? ==> oldId.value in repairs
      modifies this`repairs
      ensures
        var w := if oldId.Some? then UpdateRepair(oldId.value, id, r) else InsertRepair(id, r);
        accepted == Accepts(old(State()), w) && State() == Step(old(State()), w)
    {
      var kept := if oldId.Some? then repairs - {oldId.value} else repairs;
      var raised := EmptyBatchTargetRejected(r.batchId);
      if oldId.Some? {
        raised := raised || r.activeStage < repairs[oldId.value].activeStage;
      }
      accepted := !raised && id !in kept;
      if accepted { repairs := kept[id := r]; }
    }

    method WriteLease(oldProject: Option<string>, project: string, l: Lease) returns (accepted: bool)
      requires oldProject.Some? ==> oldProject.value in leases
      modifies this`leases
      ensures
        var w := if oldProject.Some? then UpdateLease(oldProject.value, project, l) else InsertLease(project, l);
        accepted == Accepts(old(State()), w) && State() == Step(old(State()), w)
    {
      var kept := if oldProject.Some? then leases - {oldProject.value} else leases;
      var raised := EmptyBatchTargetRejected(Some(l.batchId));
      if oldProject.Some? {
        raised := raised || l.fenceToken < leases[oldProject.value].fenceToken;
      }
      accepted := !raised && project !in kept;
      if accepted { leases := kept[project := l]; }
    }
  }

  // ----- Empty batches stay bare -----

  ghost predicate EmptyBatchesBare(t: Tables) {
    forall id :: HasLifecycle(t, id, Empty) ==> !Referenced(t, id)
  }

  /** No single trigger keeps this: a batch write looks at the three referring tables, a member,
      repair or lease write looks at the batch. */
  lemma StepKeepsEmptyBatchesBare(t: Tables, w: Write)
    requires EmptyBatchesBare(t)
    ensures EmptyBatchesBare(Step(t, w))
  {
    var t' := Step(t, w);
    forall id | HasLifecycle(t', id, Empty)
      ensures !Referenced(t', id)
    {
      if !HasLifecycle(t, id, Empty) {
        assert !Referenced(t, id);
      }
    }
  }

  /** Whatever is written last, and whatever was rejected on the way. */
  lemma {:induction false} EmptyBatchesStayBare(t: Tables, writes: seq<Write>)
    requires EmptyBatchesBare(t)
    ensures EmptyBatchesBare(After(t, writes))
  {
    if writes != [] {
      var prefix := writes[..|writes| - 1];
      EmptyBatchesStayBare(t, prefix);
      StepKeepsEmptyBatchesBare(After(t, prefix), writes[|writes| - 1]);
    }
  }

  // ----- A batch that has left 'sealing' is frozen -----

  function MembersOf(t: Tables, id: string): map<MemberKey, string> {
    map k | k in t.members && k.batchId == id :: t.members[k]
  }

  /** The write leaves the row of batch id under its key. No trigger guards DELETE on batches or
      a change of the key, so these are the two writes that can take the row away. */
  predicate KeepsRow(w: Write, id: string) {
    && w != DeleteBatch(id)
    && (w.UpdateBatch? && w.id == id ==> w.newId == id)
  }

  ghost predicate LeftSealing(t: Tables, id: string) {
    id in t.batches && t.batches[id].lifecycle != Sealing
  }

  ghost predicate SameFrozenPart(t: Tables, t': Tables, id: string)
    requires id in t.batches && id in t'.batches
  {
    && t'.batches[id].identity == t.batches[id].identity
    && MembersOf(t', id) == MembersOf(t, id)
  }

  /** One step keeps a sealed batch as it was; this includes the step that takes it out of
      'sealing', for which LeftSealing holds only afterwards. */
  lemma StepFreezes(t: Tables, w: Write, id: string)
    requires id in t.batches && KeepsRow(w, id)
    requires LeftSealing(Step(t, w), id) || LeftSealing(t, id)
    ensures LeftSealing(Step(t, w), id)
    ensures SameFrozenPart(t, Step(t, w), id)
  {
    var t' := Step(t, w);
    assert id in t'.batches;
    if t.members != t'.members {
      assert t.batches == t'.batches;
      forall k: MemberKey | k.batchId == id
        ensures (k in t.members <==> k in t'.members) && (k in t.members ==> t.members[k] == t'.members[k])
      {
        assert !HasLifecycle(t, k.batchId, Sealing);
      }
    }
    assert MembersOf(t', id) == MembersOf(t, id);
  }

  lemma {:induction false} RowIsKept(t: Tables, writes: seq<Write>, id: string)
    requires id in t.batches && forall w :: w in writes ==> KeepsRow(w, id)
    ensures id in After(t, writes).batches
  {
    if writes != [] {
      RowIsKept(t, writes[..|writes| - 1], id);
      assert KeepsRow(writes[|writes| - 1], id);
    }
  }

  /** Along every run: from the first state past 'sealing' on, the batch never returns to it and
      its identity columns and members are those of every later state; and the state just before
      it left already had them. */
  lemma {:induction false} SealedBatchIsFrozen(t: Tables, writes: seq<Write>, i: nat, j: nat, id: string)
    requires i <= j <= |writes| && id in t.batches
    requires forall w :: w in writes ==> KeepsRow(w, id)
    requires LeftSealing(After(t, writes[..i]), id) || (i < j && LeftSealing(After(t, writes[..i + 1]), id))
    ensures id in After(t, writes[..i]).batches
    ensures LeftSealing(After(t, writes[..j]), id) || i == j
    ensures id in After(t, writes[..j]).batches
    ensures SameFrozenPart(After(t, writes[..i]), After(t, writes[..j]), id)
    decreases j - i
  {
    RowIsKept(t, writes[..i], id);
    RowIsKept(t, writes[..j], id);
    if i < j {
      assert writes[..i + 1][..i] == writes[..i];
      assert After(t, writes[..i + 1]) == Step(After(t, writes[..i]), writes[i]);
      StepFreezes(After(t, writes[..i]), writes[i], id);
      SealedBatchIsFrozen(t, writes, i + 1, j, id);
    }
  }

  /** The key assumption is needed: deleting the row and inserting it again re-opens a sealed
      batch to new members. */
  lemma DeletedBatchThaws(identity: BatchIdentity, member: string)
    requires identity.baseSha.Some? && identity.integrationBranch.Some?
    ensures
      var t := Tables(map["b" := Batch(Sealed, 0, identity, "")], map[], map[], map[]);
      var writes := [DeleteBatch("b"), InsertBatch("b", Batch(Sealing, 0, identity, "")),
                     InsertMember(MemberKey("b", 0), member)];
      var t' := After(t, writes);
      LeftSealing(t, "b") && "b" in t'.batches && !LeftSealing(t', "b") && MembersOf(t', "b") != MembersOf(t, "b")
  {
    var t := Tables(map["b" := Batch(Sealed, 0, identity, "")], map[], map[], map[]);
    var open := InsertBatch("b", Batch(Sealing, 0, identity, ""));
    var join := InsertMember(MemberKey("b", 0), member);
    var writes := [DeleteBatch("b"), open, join];
    var t1 := After(t, writes[..1]);
    assert writes[..1] == [DeleteBatch("b")] && t1 == Step(After(t, []), DeleteBatch("b"));
    assert t1.batches == map[];
    var t2 := After(t, writes[..2]);
    assert writes[..2][..1] == writes[..1] && t2 == Step(t1, open);
    assert writes[..3][..2] == writes[..2] && writes[..3] == writes && After(t, writes) == Step(t2, join);
    assert MemberKey("b", 0) in MembersOf(After(t, writes), "b");
    assert MemberKey("b", 0) !in MembersOf(t, "b");
  }

  /** And it is exactly what is needed: a write leaves a batch past 'sealing' frozen in its place if
      and only if it is rejected or keeps the row under its key. */
  lemma StaysFrozenIff(t: Tables, w: Write, id: string)
    requires LeftSealing(t, id)
    ensures
      var t' := Step(t, w);
      (LeftSealing(t', id) && SameFrozenPart(t, t', id)) <==> (Accepts(t, w) ==> KeepsRow(w, id))
  {
    if KeepsRow(w, id) {
      StepFreezes(t, w, id);
    }
  }

  /** The identity trigger and the empty-identity constraint together: a batch row is 'empty' for
      its whole life or never, whatever its other lifecycle changes. */
  lemma {:induction false} EmptyIsDecidedAtInsert(t: Tables, writes: seq<Write>, id: string)
    requires id in t.batches && forall w :: w in writes ==> KeepsRow(w, id)
    requires EmptyIdentityCheck(t.batches[id])
    ensures id in After(t, writes).batches && EmptyIdentityCheck(After(t, writes).batches[id])
    ensures HasLifecycle(After(t, writes), id, Empty) <==> HasLifecycle(t, id, Empty)
  {
    if writes != [] {
      EmptyIsDecidedAtInsert(t, writes[..|writes| - 1], id);
      StepKeepsEmptiness(After(t, writes[..|writes| - 1]), writes[|writes| - 1], id);
    }
  }

  lemma StepKeepsEmptiness(t: Tables, w: Write, id: string)
    requires id in t.batches && KeepsRow(w, id) && EmptyIdentityCheck(t.batches[id])
    ensures id in Step(t, w).batches && EmptyIdentityCheck(Step(t, w).batches[id])
    ensures HasLifecycle(Step(t, w), id, Empty) <==> HasLifecycle(t, id, Empty)
  {
  }

  predicate KeepsLease(w: Write, project: string) {
    && w != DeleteLease(project)
    && (w.UpdateLease? && w.project == project ==> w.newProject == project)
  }

  predicate KeepsRepair(w: Write, operation: string) {
    && w != DeleteRepair(operation)
    && (w.UpdateRepair? && w.id == operation ==> w.newId == operation)
  }

  /** The revision of a batch, the fence of a lease and the stage of a repair operation never fall
      along a run that keeps the row under its key. */
  lemma {:induction false} RevisionNeverFalls(t: Tables, writes: seq<Write>, id: string)
    requires id in t.batches && forall w :: w in writes ==> KeepsRow(w, id)
    ensures id in After(t, writes).batches
    ensures t.batches[id].currentRevision <= After(t, writes).batches[id].currentRevision
  {
    if writes != [] {
      assert KeepsRow(writes[|writes| - 1], id);
      RevisionNeverFalls(t, writes[..|writes| - 1], id);
    }
  }

  lemma {:induction false} FenceNeverFalls(t: Tables, writes: seq<Write>, project: string)
    requires project in t.leases && forall w :: w in writes ==> KeepsLease(w, project)
    ensures project in After(t, writes).leases
    ensures t.leases[project].fenceToken <= After(t, writes).leases[project].fenceToken
  {
    if writes != [] {
      assert KeepsLease(writes[|writes| - 1], project);
      FenceNeverFalls(t, writes[..|writes| - 1], project);
    }
  }

  lemma {:induction false} StageNeverFalls(t: Tables, writes: seq<Write>, operation: string)
    requires operation in t.repairs && forall w :: w in writes ==> KeepsRepair(w, operation)
    ensures operation in After(t, writes).repairs
    ensures t.repairs[operation].activeStage <= After(t, writes).repairs[operation].activeStage
  {
    if writes != [] {
      assert KeepsRepair(writes[|writes| - 1], operation);
      StageNeverFalls(t, writes[..|writes| - 1], operation);
    }
  }

  // ----- What is accepted -----

  /** A batch row is accepted under the constraint on its two late identity columns, and as 'empty'
      only while nothing refers to it. */
  predicate Insertable(t: Tables, id: string, b: Batch) {
    if b.lifecycle.Empty? then
      && b.identity.baseSha == None && b.identity.integrationBranch == None
      && (forall k :: k in t.members ==> k.batchId != id)
      && (forall r :: r in t.repairs ==> t.repairs[r].batchId != Some(id))
      && (forall p :: p in t.leases ==> t.leases[p].batchId != id)
    else b.identity.baseSha != None && b.identity.integrationBranch != None
  }

  lemma BatchInsertTakesEffectIff(t: Tables, id: string, b: Batch)
    ensures
      Step(t, InsertBatch(id, b)) ==
        if id !in t.batches && Insertable(t, id, b) then t.(batches := t.batches[id := b]) else t
    ensures Step(t, DeleteBatch(id)) == t.(batches := t.batches - {id})
  {
  }

  /** An update of a batch goes through, whatever its lifecycle before and after, as long as the
      revision does not fall, the identity stays or the batch stays in 'sealing', and it does not
      come back there. */
  lemma BatchUpdateTakesEffectIff(t: Tables, id: string, newId: string, b: Batch)
    ensures id !in t.batches ==> Step(t, UpdateBatch(id, newId, b)) == t
    ensures id in t.batches ==>
      var before := t.batches[id];
      Step(t, UpdateBatch(id, newId, b)) ==
        if && (newId == id || newId !in t.batches)
           && Insertable(t, newId, b)
           && b.currentRevision >= before.currentRevision
           && (if before.lifecycle.Sealing? then b.lifecycle.Sealing? || b.identity == before.identity
               else !b.lifecycle.Sealing? && b.identity == before.identity)
        then t.(batches := (t.batches - {id})[newId := b])
        else t
  {
  }

  /** A member is written exactly while every batch it belongs to, before and after, is 'sealing'. */
  lemma MemberWritesTakeEffectIff(t: Tables, key: MemberKey, newKey: MemberKey, m: string)
    ensures
      var open := iset id | id in t.batches && t.batches[id].lifecycle.Sealing?;
      && Step(t, InsertMember(key, m))
         == (if key !in t.members && key.batchId in open then t.(members := t.members[key := m]) else t)
      && Step(t, UpdateMember(key, newKey, m))
         == (if && key in t.members && (newKey == key || newKey !in t.members)
                && key.batchId in open && newKey.batchId in open
             then t.(members := (t.members - {key})[newKey := m]) else t)
      && Step(t, DeleteMember(key))
         == (if key.batchId in open then t.(members := t.members - {key}) else t)
  {
    if key !in t.members {
      assert t.members - {key} == t.members;
    }
  }

  /** A repair operation may target any batch that is not 'empty', a missing one included, or none, and
      its stage may stay or rise; it is deleted freely. */
  lemma RepairWritesTakeEffectIff(t: Tables, id: string, newId: string, r: RepairOperation)
    ensures
      var targets := iset b | !(b in t.batches && t.batches[b].lifecycle.Empty?);
      var fits := r.batchId.None? || r.batchId.value in targets;
      && Step(t, InsertRepair(id, r)) == (if id !in t.repairs && fits then t.(repairs := t.repairs[id := r]) else t)
      && Step(t, UpdateRepair(id, newId, r))
         == (if && id in t.repairs && (newId == id || newId !in t.repairs)
                && fits && r.activeStage >= t.repairs[id].activeStage
             then t.(repairs := (t.repairs - {id})[newId := r]) else t)
      && Step(t, DeleteRepair(id)) == t.(repairs := t.repairs - {id})
  {
  }

  lemma LeaseWritesTakeEffectIff(t: Tables, project: string, newProject: string, l: Lease)
    ensures
      var targets := iset b | !(b in t.batches && t.batches[b].lifecycle.Empty?);
      var fits := l.batchId in targets;
      && Step(t, InsertLease(project, l))
         == (if project !in t.leases && fits then t.(leases := t.leases[project := l]) else t)
      && Step(t, UpdateLease(project, newProject, l))
         == (if && project in t.leases && (newProject == project || newProject !in t.leases)
                && fits && l.fenceToken >= t.leases[project].fenceToken
             then t.(leases := (t.leases - {project})[newProject := l]) else t)
      && Step(t, DeleteLease(project)) == t.(leases := t.leases - {project})
  {
  }

  /** Updates of one batch under its key */
  ghost predicate UpdatesOnly(writes: seq<Write>, id: string) {
    forall w :: w in writes ==> w.UpdateBatch? && w.id == id && w.newId == id
  }

  ghost predicate Reaches(t: Tables, id: string, b: Batch, writes: seq<Write>) {
    UpdatesOnly(writes, id) && After(t, writes) == t.(batches := t.batches[id := b])
  }

  /** What updates can make of a batch, in any number: raise its revision and take it to any lifecycle
      but 'sealing' and 'empty'; and, as long as it is in 'sealing', give it any identity first. */
  lemma ReachableIff(t: Tables, id: string, b: Batch)
    requires id in t.batches && EmptyIdentityCheck(t.batches[id]) && EmptyBatchesBare(t)
    ensures
      var before := t.batches[id];
      (exists writes :: Reaches(t, id, b, writes)) <==>
        && before.currentRevision <= b.currentRevision && EmptyIdentityCheck(b)
        && (b.lifecycle == Empty <==> before.lifecycle == Empty)
        && (before.lifecycle != Sealing ==> b.lifecycle != Sealing && b.identity == before.identity)
  {
    var before := t.batches[id];
    if writes :| Reaches(t, id, b, writes) {
      ReachedRow(t, id, b, writes);
    }
    if && before.currentRevision <= b.currentRevision && EmptyIdentityCheck(b)
       && (b.lifecycle == Empty <==> before.lifecycle == Empty)
       && (before.lifecycle != Sealing ==> b.lifecycle != Sealing && b.identity == before.identity)
    {
      var writes := TwoUpdates(t, id, b);
    }
  }

  lemma ReachedRow(t: Tables, id: string, b: Batch, writes: seq<Write>)
    requires id in t.batches && EmptyIdentityCheck(t.batches[id]) && Reaches(t, id, b, writes)
    ensures
      var before := t.batches[id];
      && before.currentRevision <= b.currentRevision && EmptyIdentityCheck(b)
      && (b.lifecycle == Empty <==> before.lifecycle == Empty)
      && (before.lifecycle != Sealing ==> b.lifecycle != Sealing && b.identity == before.identity)
  {
    hide After;
    assert forall w :: w in writes ==> KeepsRow(w, id);
    EmptyIsDecidedAtInsert(t, writes, id);
    RevisionNeverFalls(t, writes, id);
    if t.batches[id].lifecycle != Sealing {
      assert writes[..0] == [] && writes[..|writes|] == writes;
      NoWrites(t);
      SealedBatchIsFrozen(t, writes, 0, |writes|, id);
    }
  }

  lemma NoWrites(t: Tables)
    ensures After(t, []) == t
  {
  }

  lemma TwoUpdates(t: Tables, id: string, b: Batch) returns (writes: seq<Write>)
    requires id in t.batches && EmptyBatchesBare(t)
    requires
      var before := t.batches[id];
      && before.currentRevision <= b.currentRevision && EmptyIdentityCheck(b)
      && (b.lifecycle == Empty <==> before.lifecycle == Empty)
      && (before.lifecycle != Sealing ==> b.lifecycle != Sealing && b.identity == before.identity)
    ensures Reaches(t, id, b, writes)
  {
    var first := UpdateBatch(id, id, t.batches[id].(identity := b.identity));
    var second := UpdateBatch(id, id, b);
    writes := [first, second];
    var t1 := t.(batches := t.batches[id := first.batch]);
    assert !(b.lifecycle == Empty) || !Referenced(t, id) by {
      assert HasLifecycle(t, id, Empty) ==> !Referenced(t, id);
    }
    assert Step(t, first) == t1;
    assert Referenced(t1, id) == Referenced(t, id);
    assert Step(t1, second) == t.(batches := t.batches[id := b]);
    assert writes[..1] == [first] && [first][..0] == [];
    assert After(t, [first]) == t1;
  }
}
