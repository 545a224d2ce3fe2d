/**
 The single-row guards: candidate publications, conflict resolutions, cleanup items and ref
 mutations.  Each class holds one row; Update runs the BEFORE UPDATE triggers and table
 constraints, and remembers the accepted rows, so that a run is a sequence of rows each accepted
 after the one before.  JSON columns are compared as text, as the triggers do.
 */
module IntegrationRecords {
  import opened Options

  // ----- Candidate publications -----

  datatype PublicationState = Reserved | RefPublished | PrReserved | PrPublished

  datatype PublicationIdentity = PublicationIdentity(
    repositoryId: string, repositoryNumericId: int, repositoryFullName: string, baseRef: string,
    headRef: string, headSha: string, expectedOldSha: string, idempotencyKey: string)

  datatype Publication = Publication(
    identity: PublicationIdentity, state: PublicationState, prNumber: Option<int>, prUrl: Option<string>)

  function PublicationRank(s: PublicationState): nat {
    match s
    case Reserved => 0
    case RefPublished => 1
    case PrReserved => 2
    case PrPublished => 3
  }

  predicate PublicationAccepts(before: Publication, after: Publication) {
    && after.identity == before.identity
    && (before.state == PrPublished ==> after.prNumber == before.prNumber && after.prUrl == before.prUrl)
    && PublicationRank(after.state) - PublicationRank(before.state) in {0, 1}
  }

  ghost predicate PublicationRun(rows: seq<Publication>) {
    && rows != []
    && forall i :: 0 <= i < |rows| - 1 ==> PublicationAccepts(rows[i], rows[i + 1])
  }

  class PublicationRow {
    var row: Publication
    ghost var history: seq<Publication>

    ghost predicate Valid()
      reads this
    {
      PublicationRun(history) && history[|history| - 1] == row
    }

    constructor (first: Publication)
      ensures Valid() && row == first && history == [first]
    {
      row, history := first, [first];
    }

    /** integration_candidate_publication_is_monotone */
    method Update(new_: Publication) returns (raised: bool)
      requires Valid()
      modifies this
      ensures Valid()
      ensures !raised <==> PublicationAccepts(old(row), new_)
      ensures row == (if raised then old(row) else new_)
      ensures history == (if raised then old(history) else old(history) + [new_])
    {
      if (|| new_.identity.repositoryId != row.identity.repositoryId
          || new_.identity.repositoryNumericId != row.identity.repositoryNumericId
          || new_.identity.repositoryFullName != row.identity.repositoryFullName
          || new_.identity.baseRef != row.identity.baseRef
          || new_.identity.headRef != row.identity.headRef
          || new_.identity.headSha != row.identity.headSha
          || new_.identity.expectedOldSha != row.identity.expectedOldSha
          || new_.identity.idempotencyKey != row.identity.idempotencyKey)
      {
        return true;
      }
      if row.state == PrPublished && (new_.prNumber != row.prNumber || new_.prUrl != row.prUrl) {
        return true;
      }
      var newRank, oldRank := PublicationRank(new_.state), PublicationRank(row.state);
      if newRank != oldRank && newRank != oldRank + 1 {
        return true;
      }
      row, history := new_, history + [new_];
      return false;
    }
  }

  /** Along every run of accepted updates the rank climbs by at most one per update and never
      falls, the identity stays, and the pull request stays once published. */
  lemma {:induction false} PublicationOnlyAdvances(rows: seq<Publication>, i: nat, j: nat)
    requires PublicationRun(rows) && i <= j < |rows|
    ensures PublicationRank(rows[i].state) <= PublicationRank(rows[j].state) <= PublicationRank(rows[i].state) + (j - i)
    ensures rows[j].identity == rows[i].identity
    ensures rows[i].state == PrPublished ==>
      rows[j].state == PrPublished && rows[j].prNumber == rows[i].prNumber && rows[j].prUrl == rows[i].prUrl
    decreases j - i
  {
    if i < j {
      PublicationOnlyAdvances(rows, i, j - 1);
      assert PublicationAccepts(rows[j - 1], rows[j]);
    }
  }

  /** So a run that ends published passed through every earlier state, in order. */
  lemma {:induction false} PublishedThroughEveryState(rows: seq<Publication>, j: nat, rank: nat)
    requires PublicationRun(rows) && j < |rows|
    requires PublicationRank(rows[0].state) <= rank <= PublicationRank(rows[j].state)
    ensures exists i :: 0 <= i <= j && PublicationRank(rows[i].state) == rank
    decreases j
  {
    if PublicationRank(rows[j].state) != rank {
      PublicationOnlyAdvances(rows, j - 1, j);
      PublishedThroughEveryState(rows, j - 1, rank);
    }
  }

  /** One update, state by state: it stays or goes to the next state, with a free hand in the pull
      request until that is published. */
  lemma PublicationUpdateIff(before: Publication, after: Publication)
    ensures PublicationAccepts(before, after) <==>
      && after.identity == before.identity
      && match before.state
         case Reserved => after.state in {Reserved, RefPublished}
         case RefPublished => after.state in {RefPublished, PrReserved}
         case PrReserved => after.state in {PrReserved, PrPublished}
         case PrPublished => after == before
  {
  }

  ghost predicate PublicationPath(rows: seq<Publication>, before: Publication, after: Publication) {
    PublicationRun(rows) && rows[0] == before && rows[|rows| - 1] == after
  }

  /** What updates can make of a publication, in any number: anything at or past its state under the
      same identity, until the pull request is published. */
  lemma PublicationReachableIff(before: Publication, after: Publication)
    ensures (exists rows :: PublicationPath(rows, before, after)) <==>
      && after.identity == before.identity
      && match before.state
         case Reserved => true
         case RefPublished => after.state != Reserved
         case PrReserved => after.state in {PrReserved, PrPublished}
         case PrPublished => after == before
  {
    if rows :| PublicationPath(rows, before, after) {
      PublicationOnlyAdvances(rows, 0, |rows| - 1);
    }
    if && after.identity == before.identity && PublicationRank(before.state) <= PublicationRank(after.state)
       && (before.state == PrPublished ==> after == before)
    {
      var rows := PublicationSteps(before, after);
    }
  }

  lemma {:induction false} PublicationSteps(before: Publication, after: Publication) returns (rows: seq<Publication>)
    requires after.identity == before.identity && PublicationRank(before.state) <= PublicationRank(after.state)
    requires before.state == PrPublished ==> after == before
    ensures PublicationPath(rows, before, after)
    decreases PublicationRank(after.state) - PublicationRank(before.state)
  {
    if PublicationRank(after.state) <= PublicationRank(before.state) + 1 {
      rows := [before, after];
    } else {
      var next := before.(state := if before.state == Reserved then RefPublished else PrReserved);
      var rest := PublicationSteps(next, after);
      rows := [before] + rest;
    }
  }

  // ----- Conflict resolutions -----

  datatype ResolutionState = ResReserved | ResPushed | ResAccepted | ResRejected

  /** The twenty-five identity columns, grouped; none of them may change. */
  datatype ResolutionIdentity = ResolutionIdentity(
    batchId: string, revision: int, memberOrdinal: int, operationId: string, operationEpisodeId: string,
    stageOrdinal: int, stageDeadlineAt: Option<real>, projectId: string, repairTaskId: string,
    repairSessionId: string, repairSessionInstanceToken: string, repairWorkspaceId: string,
    repairWorkspacePath: string, repositoryId: string, branch: string, targetBranch: string,
    targetKind: string, fenceOwnerId: string, fenceToken: int, partialHeadSha: string,
    sourceBaseSha: string, sourceHeadSha: string, resolvedHeadSha: string, resolvedTreeSha: string,
    repairCommitShas: string)

  datatype Resolution = Resolution(
    identity: ResolutionIdentity, state: ResolutionState,
    handoffOwnerId: Option<string>, handoffFenceToken: Option<int>,
    pushEvidence: Option<string>, rejectionEvidence: Option<string>)

  function ResolutionRank(s: ResolutionState): nat {
    match s
    case ResReserved => 0
    case ResPushed => 1
    case _ => 2
  }

  predicate HandoffComplete(r: Resolution) {
    r.handoffOwnerId.None? <==> r.handoffFenceToken.None?
  }

  /** The table constraints that tie the evidence columns to the state. */
  predicate ResolutionChecks(r: Resolution) {
    && HandoffComplete(r)
    && (r.state == ResReserved <==> r.pushEvidence.None?)
    && (r.state == ResRejected <==> r.rejectionEvidence.Some?)
  }

  /** A column that is written at most once. */
  predicate WriteOnce<T(==)>(before: Option<T>, after: Option<T>) {
    before.Some? ==> after == before
  }

  predicate ResolutionTriggerAccepts(before: Resolution, after: Resolution) {
    && after.identity == before.identity
    && (before.handoffOwnerId.Some? ==>
          after.handoffOwnerId == before.handoffOwnerId && after.handoffFenceToken == before.handoffFenceToken)
    && HandoffComplete(after)
    && WriteOnce(before.pushEvidence, after.pushEvidence)
    && WriteOnce(before.rejectionEvidence, after.rejectionEvidence)
    && ResolutionRank(after.state) - ResolutionRank(before.state) in {0, 1}
  }

  ghost predicate ResolutionRun(rows: seq<Resolution>) {
    && rows != []
    && forall i :: 0 <= i < |rows| - 1 ==> ResolutionTriggerAccepts(rows[i], rows[i + 1])
  }

  class ResolutionRow {
    var row: Resolution
    ghost var history: seq<Resolution>

    ghost predicate Valid()
      reads this
    {
      && ResolutionRun(history) && history[|history| - 1] == row
      && forall r :: r in history ==> ResolutionChecks(r)
    }

    constructor (first: Resolution)
      requires ResolutionChecks(first)
      ensures Valid() && row == first && history == [first]
    {
      row, history := first, [first];
    }

    /** integration_candidate_resolution_is_monotone, then the table constraints */
    method Update(new_: Resolution) returns (raised: bool)
      requires Valid()
      modifies this
      ensures Valid()
      ensures !raised <==> ResolutionTriggerAccepts(old(row), new_) && ResolutionChecks(new_)
      ensures row == (if raised then old(row) else new_)
      ensures history == (if raised then old(history) else old(history) + [new_])
    {
      if new_.identity != row.identity { return true; }
      if row.handoffOwnerId.Some? &&
         (new_.handoffOwnerId != row.handoffOwnerId || new_.handoffFenceToken != row.handoffFenceToken)
      {
        return true;
      }
      if new_.handoffOwnerId.None? != new_.handoffFenceToken.None? { return true; }
      if row.pushEvidence.Some? && new_.pushEvidence != row.pushEvidence { return true; }
      if row.rejectionEvidence.Some? && new_.rejectionEvidence != row.rejectionEvidence { return true; }
      var newRank, oldRank := ResolutionRank(new_.state), ResolutionRank(row.state);
      if newRank != oldRank && newRank != oldRank + 1 { return true; }
      if !ResolutionChecks(new_) { return true; }
      row, history := new_, history + [new_];
      return false;
    }
  }

  /** The trigger alone: ranks climb one at a time, the identity stays, each evidence column and
      the handoff pair are written at most once, and no updated row has half a handoff. */
  lemma {:induction false} ResolutionOnlyAdvances(rows: seq<Resolution>, i: nat, j: nat)
    requires ResolutionRun(rows) && i <= j < |rows|
    ensures ResolutionRank(rows[i].state) <= ResolutionRank(rows[j].state) <= ResolutionRank(rows[i].state) + (j - i)
    ensures rows[j].identity == rows[i].identity
    ensures WriteOnce(rows[i].pushEvidence, rows[j].pushEvidence)
    ensures WriteOnce(rows[i].rejectionEvidence, rows[j].rejectionEvidence)
    ensures WriteOnce(rows[i].handoffOwnerId, rows[j].handoffOwnerId)
    ensures rows[i].handoffOwnerId.Some? ==> rows[j].handoffFenceToken == rows[i].handoffFenceToken
    ensures i < j ==> HandoffComplete(rows[j])
    decreases j - i
  {
    if i < j {
      ResolutionOnlyAdvances(rows, i, j - 1);
      assert ResolutionTriggerAccepts(rows[j - 1], rows[j]);
    }
  }

  /** With the constraints, 'rejected' is terminal, although the trigger ranks 'accepted' and
      'rejected' alike: going back would have to erase the rejection evidence. */
  lemma RejectionIsFinal(rows: seq<Resolution>, i: nat, j: nat)
    requires ResolutionRun(rows) && i <= j < |rows|
    requires forall r :: r in rows ==> ResolutionChecks(r)
    ensures rows[i].state == ResRejected ==> rows[j].state == ResRejected
  {
    ResolutionOnlyAdvances(rows, i, j);
    assert rows[i] in rows && rows[j] in rows;
  }

  /** 'accepted' is not: an accepted row can still become rejected. */
  lemma AcceptanceIsNotFinal(r: Resolution, evidence: string)
    requires r.state == ResAccepted && ResolutionChecks(r)
    ensures
      var r' := r.(state := ResRejected, rejectionEvidence := Some(evidence));
      ResolutionTriggerAccepts(r, r') && ResolutionChecks(r')
  {
  }

  /** The handoff pair is written whole, and at most once. */
  predicate HandoffOnce(before: Resolution, after: Resolution) {
    if before.handoffOwnerId.Some? then
      after.handoffOwnerId == before.handoffOwnerId && after.handoffFenceToken == before.handoffFenceToken
    else after.handoffOwnerId.Some? == after.handoffFenceToken.Some?
  }

  /** Trigger and constraints together, state by state: a push brings its evidence, a rejection its
      own, after a push or even after an acceptance. */
  lemma ResolutionUpdateIff(before: Resolution, after: Resolution)
    requires ResolutionChecks(before)
    ensures ResolutionTriggerAccepts(before, after) && ResolutionChecks(after) <==>
      && after.identity == before.identity && HandoffOnce(before, after)
      && (after.rejectionEvidence.Some? <==> after.state == ResRejected)
      && match before.state
         case ResReserved =>
           if after.pushEvidence.Some? then after.state == ResPushed else after.state == ResReserved
         case ResPushed =>
           after.pushEvidence == before.pushEvidence && after.state in {ResPushed, ResAccepted, ResRejected}
         case ResAccepted =>
           after.pushEvidence == before.pushEvidence && after.state in {ResAccepted, ResRejected}
         case ResRejected =>
           && after.pushEvidence == before.pushEvidence && after.state == ResRejected
           && after.rejectionEvidence == before.rejectionEvidence
  {
  }

  ghost predicate ResolutionPath(rows: seq<Resolution>, before: Resolution, after: Resolution) {
    && ResolutionRun(rows) && rows[0] == before && rows[|rows| - 1] == after
    && forall r :: r in rows ==> ResolutionChecks(r)
  }

  /** What updates can make of a resolution, in any number: anything under the same identity that
      keeps the evidence and the handoff written so far and does not go back; of the final states only
      'rejected' is one. */
  lemma ResolutionReachableIff(before: Resolution, after: Resolution)
    requires ResolutionChecks(before) && ResolutionChecks(after)
    ensures (exists rows :: ResolutionPath(rows, before, after)) <==>
      && after.identity == before.identity && HandoffOnce(before, after)
      && (before.pushEvidence.Some? ==> after.pushEvidence == before.pushEvidence)
      && match before.state
         case ResReserved => true
         case ResPushed => true
         case ResAccepted => after.state != ResPushed
         case ResRejected => after.rejectionEvidence == before.rejectionEvidence
  {
    if rows :| ResolutionPath(rows, before, after) {
      ResolutionOnlyAdvances(rows, 0, |rows| - 1);
    }
    if && after.identity == before.identity && HandoffOnce(before, after)
       && WriteOnce(before.pushEvidence, after.pushEvidence)
       && WriteOnce(before.rejectionEvidence, after.rejectionEvidence)
       && (before.state == ResAccepted ==> after.state != ResPushed)
    {
      ResolutionSteps(before, after);
    }
  }

  lemma ResolutionSteps(before: Resolution, after: Resolution)
    requires ResolutionChecks(before) && ResolutionChecks(after)
    requires after.identity == before.identity && HandoffOnce(before, after)
    requires WriteOnce(before.pushEvidence, after.pushEvidence)
    requires WriteOnce(before.rejectionEvidence, after.rejectionEvidence)
    requires before.state == ResAccepted ==> after.state != ResPushed
    ensures exists rows :: ResolutionPath(rows, before, after)
  {
    var pushed := before.(state := ResPushed, pushEvidence := after.pushEvidence);
    if before.state == ResReserved && after.state !in {ResReserved, ResPushed} {
      assert ResolutionPath([before, pushed, after], before, after);
    } else {
      assert ResolutionPath([before, after], before, after);
    }
  }

  // ----- Cleanup items -----

  datatype CleanupState = Pending | Retryable | Complete | Conflict | CleanupFailed

  datatype CleanupIdentity = CleanupIdentity(
    batchId: string, kind: string, identity: string, domainKey: string, projectId: string,
    repositoryId: string, repositoryNumericId: int, repositoryFullName: string, revision: int,
    memberOrdinal: Option<int>, receiptId: Option<string>, targetRef: Option<string>,
    targetPrNumber: Option<int>, targetPrUrl: Option<string>, workspacePath: Option<string>,
    expectedSha: string, createdAt: real)

  datatype CleanupItem = CleanupItem(
    identity: CleanupIdentity, state: CleanupState, executionNonce: Option<string>,
    irreversibleNonce: Option<string>, irreversiblePrewriteAt: Option<real>, rest: string)

  predicate CleanupTerminal(s: CleanupState) {
    s in {Complete, Conflict, CleanupFailed}
  }

  predicate CleanupItemGuard(before: CleanupItem, after: CleanupItem) {
    && after.identity == before.identity
    && (CleanupTerminal(before.state) ==> after == before)
  }

  predicate IrreversibleGuard(before: CleanupItem, after: CleanupItem) {
    && (before.irreversibleNonce.Some? ==>
          && after.irreversibleNonce == before.irreversibleNonce
          && after.irreversiblePrewriteAt == before.irreversiblePrewriteAt)
    && (after.irreversiblePrewriteAt.Some? ==>
          && after.irreversibleNonce.Some?
          && (before.irreversiblePrewriteAt.None? ==> after.irreversibleNonce == before.executionNonce))
  }

  predicate CleanupAccepts(before: CleanupItem, after: CleanupItem) {
    CleanupItemGuard(before, after) && IrreversibleGuard(before, after)
  }

  ghost predicate CleanupRun(rows: seq<CleanupItem>) {
    && rows != []
    && forall i :: 0 <= i < |rows| - 1 ==> CleanupAccepts(rows[i], rows[i + 1])
  }

  class CleanupRow {
    var row: CleanupItem
    ghost var history: seq<CleanupItem>

    ghost predicate Valid()
      reads this
    {
      CleanupRun(history) && history[|history| - 1] == row
    }

    constructor (first: CleanupItem)
      ensures Valid() && row == first && history == [first]
    {
      row, history := first, [first];
    }

    /** integration_cleanup_irreversible_guard and integration_cleanup_item_guard: both fire. */
    method Update(new_: CleanupItem) returns (raised: bool)
      requires Valid()
      modifies this
      ensures Valid()
      ensures !raised <==> CleanupAccepts(old(row), new_)
      ensures row == (if raised then old(row) else new_)
      ensures history == (if raised then old(history) else old(history) + [new_])
    {
      if row.irreversibleNonce.Some? &&
         (|| new_.irreversibleNonce != row.irreversibleNonce
          || new_.irreversiblePrewriteAt != row.irreversiblePrewriteAt)
      {
        return true;
      }
      if new_.irreversiblePrewriteAt.Some? &&
         (|| new_.irreversibleNonce.None?
          || (row.irreversiblePrewriteAt.None? && new_.irreversibleNonce != row.executionNonce))
      {
        return true;
      }
      if new_.identity != row.identity { return true; }
      if CleanupTerminal(row.state) && new_ != row { return true; }
      row, history := new_, history + [new_];
      return false;
    }
  }

  /** The update from row i to row i + 1 is the one that claims the irreversible write: nonce and
      mark appear together, under the nonce of the execution that held the item just before. */
  predicate ClaimsAt(rows: seq<CleanupItem>, i: nat)
    requires i + 1 < |rows|
  {
    && rows[i].irreversibleNonce.None? && rows[i].irreversiblePrewriteAt.None?
    && rows[i + 1].irreversibleNonce.Some? && rows[i + 1].irreversiblePrewriteAt.Some?
    && rows[i + 1].irreversibleNonce == rows[i].executionNonce
  }

  /** Once the nonce is set, nonce and mark stay as they are: a nonce set alone never gains a mark. */
  lemma {:induction false} IrreversibleIsFixed(rows: seq<CleanupItem>, i: nat, j: nat)
    requires CleanupRun(rows) && i <= j < |rows| && rows[i].irreversibleNonce.Some?
    ensures rows[j].irreversibleNonce == rows[i].irreversibleNonce
    ensures rows[j].irreversiblePrewriteAt == rows[i].irreversiblePrewriteAt
    decreases j - i
  {
    if i < j {
      IrreversibleIsFixed(rows, i, j - 1);
      assert CleanupAccepts(rows[j - 1], rows[j]);
    }
  }

  lemma {:induction false} MarkWasClaimed(rows: seq<CleanupItem>, j: nat) returns (i: nat)
    requires CleanupRun(rows) && j < |rows|
    requires rows[0].irreversibleNonce.None? && rows[0].irreversiblePrewriteAt.None?
    requires rows[j].irreversiblePrewriteAt.Some?
    ensures i < j && ClaimsAt(rows, i)
    decreases j
  {
    assert CleanupAccepts(rows[j - 1], rows[j]);
    if rows[j - 1].irreversiblePrewriteAt.Some? {
      i := MarkWasClaimed(rows, j - 1);
    } else {
      i := j - 1;
    }
  }

  /** A marked row has exactly one past claim, and nonce and mark are fixed from it on. */
  lemma MarkHasOneClaim(rows: seq<CleanupItem>, j: nat)
    requires CleanupRun(rows) && j < |rows|
    requires rows[0].irreversibleNonce.None? && rows[0].irreversiblePrewriteAt.None?
    requires rows[j].irreversiblePrewriteAt.Some?
    ensures exists i ::
      && 0 <= i < j && ClaimsAt(rows, i)
      && (forall i' :: 0 <= i' < j && ClaimsAt(rows, i') ==> i' == i)
      && (forall k :: i < k <= j ==>
            && rows[k].irreversibleNonce == rows[i].executionNonce
            && rows[k].irreversiblePrewriteAt == rows[j].irreversiblePrewriteAt)
  {
    var i := MarkWasClaimed(rows, j);
    forall k | i < k <= j
      ensures rows[k].irreversibleNonce == rows[i].executionNonce
      ensures rows[k].irreversiblePrewriteAt == rows[j].irreversiblePrewriteAt
    {
      IrreversibleIsFixed(rows, i + 1, k);
      IrreversibleIsFixed(rows, k, j);
    }
    forall i' | 0 <= i' < j && ClaimsAt(rows, i')
      ensures i' == i
    {
      if i' < i {
        IrreversibleIsFixed(rows, i' + 1, i);
      }
    }
  }

  /** An item whose mark, if it has one, goes with a nonce, as a claim leaves it */
  predicate IsMarkedWhole(item: CleanupItem) {
    item.irreversiblePrewriteAt.Some? ==> item.irreversibleNonce.Some?
  }

  /** Both guards together: a terminal item stays as it is. Any other keeps its identity and a nonce it
      has; without one it may take a bare nonce, or nonce and mark under its execution nonce. */
  lemma CleanupUpdateIff(before: CleanupItem, after: CleanupItem)
    requires IsMarkedWhole(before)
    ensures CleanupAccepts(before, after) <==>
      if before.state in {Complete, Conflict, CleanupFailed} then after == before
      else
        && after.identity == before.identity
        && (if before.irreversibleNonce.Some? then
              && after.irreversibleNonce == before.irreversibleNonce
              && after.irreversiblePrewriteAt == before.irreversiblePrewriteAt
            else
              || after.irreversiblePrewriteAt.None?
              || (after.irreversibleNonce == before.executionNonce && before.executionNonce.Some?))
  {
  }

  ghost predicate CleanupPath(rows: seq<CleanupItem>, before: CleanupItem, after: CleanupItem) {
    CleanupRun(rows) && rows[0] == before && rows[|rows| - 1] == after
  }

  /** What updates can make of a cleanup item, in any number: nothing else once it is terminal, and
      otherwise any item of its identity that keeps nonce and mark once there is a nonce. The
      execution nonce does not bound this, since an update may set it first. */
  lemma CleanupReachableIff(before: CleanupItem, after: CleanupItem)
    requires IsMarkedWhole(before)
    ensures (exists rows :: CleanupPath(rows, before, after)) <==>
      if before.state in {Complete, Conflict, CleanupFailed} then after == before
      else
        && after.identity == before.identity && IsMarkedWhole(after)
        && (before.irreversibleNonce.Some? ==>
              && after.irreversibleNonce == before.irreversibleNonce
              && after.irreversiblePrewriteAt == before.irreversiblePrewriteAt)
  {
    if rows :| CleanupPath(rows, before, after) {
      CleanupOnlyAdvances(rows, |rows| - 1);
    }
    if CleanupTerminal(before.state) {
      assert CleanupPath([before], before, before);
    } else {
      CleanupSteps(before, after);
    }
  }

  lemma {:induction false} CleanupOnlyAdvances(rows: seq<CleanupItem>, j: nat)
    requires CleanupRun(rows) && j < |rows| && IsMarkedWhole(rows[0])
    ensures rows[j].identity == rows[0].identity && IsMarkedWhole(rows[j])
    ensures CleanupTerminal(rows[0].state) ==> rows[j] == rows[0]
    ensures rows[0].irreversibleNonce.Some? ==>
      && rows[j].irreversibleNonce == rows[0].irreversibleNonce
      && rows[j].irreversiblePrewriteAt == rows[0].irreversiblePrewriteAt
    decreases j
  {
    if j > 0 {
      CleanupOnlyAdvances(rows, j - 1);
      assert CleanupAccepts(rows[j - 1], rows[j]);
    }
  }

  lemma CleanupSteps(before: CleanupItem, after: CleanupItem)
    requires !CleanupTerminal(before.state) && IsMarkedWhole(before)
    ensures && after.identity == before.identity && IsMarkedWhole(after)
            && (before.irreversibleNonce.Some? ==>
                  && after.irreversibleNonce == before.irreversibleNonce
                  && after.irreversiblePrewriteAt == before.irreversiblePrewriteAt)
            ==> exists rows :: CleanupPath(rows, before, after)
  {
    var claimed := before.(executionNonce := after.irreversibleNonce);
    var rows := [before, claimed, after];
    assert CleanupAccepts(before, claimed);
    if CleanupAccepts(claimed, after) {
      assert CleanupPath(rows, before, after);
    }
  }

  // ----- Ref mutations -----

  datatype MutationState = MutReserved | MutApplied | MutSuperseded

  /** identity: the eighteen columns compared as one row, purpose being one of them. */
  datatype RefMutation = RefMutation(
    purposeIsRootMain: bool, identity: seq<string>, state: MutationState, remoteSha: Option<string>,
    nonce: string, expiresAt: real, prewriteAt: Option<real>, rest: string)

  predicate MutationAccepts(before: RefMutation, after: RefMutation) {
    && after.purposeIsRootMain == before.purposeIsRootMain && after.identity == before.identity
    && (before.state == MutApplied ==>
          && after.state == MutApplied && after.remoteSha == before.remoteSha
          && after.nonce == before.nonce && after.expiresAt == before.expiresAt)
    && (before.purposeIsRootMain && before.state == MutSuperseded ==> after == before)
    && WriteOnce(before.prewriteAt, after.prewriteAt)
  }

  ghost predicate MutationRun(rows: seq<RefMutation>) {
    && rows != []
    && forall i :: 0 <= i < |rows| - 1 ==> MutationAccepts(rows[i], rows[i + 1])
  }

  class RefMutationRow {
    var row: RefMutation
    ghost var history: seq<RefMutation>

    ghost predicate Valid()
      reads this
    {
      MutationRun(history) && history[|history| - 1] == row
    }

    constructor (first: RefMutation)
      ensures Valid() && row == first && history == [first]
    {
      row, history := first, [first];
    }

    /** integration_candidate_mutation_is_monotone and integration_root_prewrite_immutable */
    method Update(new_: RefMutation) returns (raised: bool)
      requires Valid()
      modifies this
      ensures Valid()
      ensures !raised <==> MutationAccepts(old(row), new_)
      ensures row == (if raised then old(row) else new_)
      ensures history == (if raised then old(history) else old(history) + [new_])
    {
      if new_.identity != row.identity || new_.purposeIsRootMain != row.purposeIsRootMain { return true; }
      if row.state == MutApplied &&
         (|| new_.state != row.state || new_.remoteSha != row.remoteSha
          || new_.nonce != row.nonce || new_.expiresAt != row.expiresAt)
      {
        return true;
      }
      if row.purposeIsRootMain && row.state == MutSuperseded && new_ != row { return true; }
      if row.prewriteAt.Some? && new_.prewriteAt != row.prewriteAt { return true; }
      row, history := new_, history + [new_];
      return false;
    }
  }

  /** A root-main mutation gets at most one outcome: once applied or superseded it stays so along
      every run; the other purposes may still leave 'superseded'. */
  lemma {:induction false} MutationOutcomeIsFinal(rows: seq<RefMutation>, i: nat, j: nat)
    requires MutationRun(rows) && i <= j < |rows|
    ensures rows[j].identity == rows[i].identity && rows[j].purposeIsRootMain == rows[i].purposeIsRootMain
    ensures WriteOnce(rows[i].prewriteAt, rows[j].prewriteAt)
    ensures rows[i].state == MutApplied ==>
      && rows[j].state == MutApplied && rows[j].remoteSha == rows[i].remoteSha
      && rows[j].nonce == rows[i].nonce && rows[j].expiresAt == rows[i].expiresAt
    ensures rows[i].purposeIsRootMain && rows[i].state == MutSuperseded ==> rows[j] == rows[i]
    decreases j - i
  {
    if i < j {
      MutationOutcomeIsFinal(rows, i, j - 1);
      assert MutationAccepts(rows[j - 1], rows[j]);
    }
  }

  /** One update: the eighteen columns stay, the prewrite marker is written at most once, and an outcome
      that is final stays; everything else is free, and of a superseded claim only for root main it is
      not. */
  lemma MutationUpdateIff(before: RefMutation, after: RefMutation)
    ensures MutationAccepts(before, after) <==>
      && after.purposeIsRootMain == before.purposeIsRootMain && after.identity == before.identity
      && (before.prewriteAt.None? || after.prewriteAt == before.prewriteAt)
      && match before.state
         case MutReserved => true
         case MutApplied =>
           after == before.(prewriteAt := after.prewriteAt, rest := after.rest)
         case MutSuperseded => !before.purposeIsRootMain || after == before
  {
  }

  ghost predicate MutationPath(rows: seq<RefMutation>, before: RefMutation, after: RefMutation) {
    MutationRun(rows) && rows[0] == before && rows[|rows| - 1] == after
  }

  /** Updates in any number can make of a mutation just what one update can. */
  lemma MutationReachableIff(before: RefMutation, after: RefMutation)
    ensures (exists rows :: MutationPath(rows, before, after)) <==> MutationAccepts(before, after)
  {
    if rows :| MutationPath(rows, before, after) {
      MutationOutcomeIsFinal(rows, 0, |rows| - 1);
    }
    if MutationAccepts(before, after) {
      assert MutationPath([before, after], before, after);
    }
  }
}
