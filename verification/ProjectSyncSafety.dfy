/** No update is lost, and a delete can be undone exactly. */
module ProjectSyncSafety {
  import opened Prelude
  import opened ProjectSync
  import opened ProjectSyncInvariant
  import opened ProjectSyncRuns

  // ----- no lost update -----

  /** What one request does to a project's revision: an accepted commit, and nothing else, moves it, by one. */
  lemma RevisionStep(sha256: Bytes -> Hash, db: Db, op: Op, id: Id)
    requires id in Step(sha256, db, op).projects
    ensures var after := Step(sha256, db, op).projects[id];
      if Commits(db, op) && op.id == id
      then Accepts(db, id, op.base) && after.revision == NextRevision(db, id)
      else id in db.projects && after.revision == db.projects[id].revision
  {
    hide CommittedFiles, CommittedRevisions, Used, WantedSizes, UploadReply;
  }

  /** A project's row is removed only by a purge, and only once it has been deleted for longer than 30 days. */
  lemma LifeEndsOnlyWhenDue(sha256: Bytes -> Hash, db: Db, op: Op, id: Id)
    requires id in db.projects
    ensures id !in Step(sha256, db, op).projects <==> op.ListOp? && Due(db.projects[id], op.now)
  {
    hide CommittedFiles, CommittedRevisions, Used, WantedSizes, UploadReply, Due;
  }

  /** Request k of a run is an accepted commit to this project. */
  ghost predicate AcceptedAt(sha256: Bytes -> Hash, ops: seq<Op>, k: nat, id: Id)
    requires k < |ops|
  {
    Commits(After(sha256, EMPTY, ops[..k]), ops[k]) && ops[k].id == id
  }

  ghost function CountAccepted(sha256: Bytes -> Hash, ops: seq<Op>, i: nat, j: nat, id: Id): nat
    requires i <= j <= |ops|
    decreases j
  {
    if i == j then 0
    else CountAccepted(sha256, ops, i, j - 1, id) + if AcceptedAt(sha256, ops, j - 1, id) then 1 else 0
  }

  /** The row exists before each of the requests i to j: one life of the project. */
  ghost predicate LiveThrough(sha256: Bytes -> Hash, ops: seq<Op>, i: nat, j: nat, id: Id)
    requires j <= |ops|
  {
    forall k: nat | i <= k <= j :: id in After(sha256, EMPTY, ops[..k]).projects
  }

  lemma AfterNext(sha256: Bytes -> Hash, ops: seq<Op>, k: nat)
    requires k < |ops|
    ensures After(sha256, EMPTY, ops[..k + 1]) == Step(sha256, After(sha256, EMPTY, ops[..k]), ops[k])
  {
    hide Step;
    assert ops[..k + 1][..k] == ops[..k];
  }

  lemma {:induction false} RevisionCountsCommits(sha256: Bytes -> Hash, ops: seq<Op>, i: nat, j: nat, id: Id)
    requires i <= j <= |ops| && LiveThrough(sha256, ops, i, j, id)
    ensures After(sha256, EMPTY, ops[..j]).projects[id].revision
      == After(sha256, EMPTY, ops[..i]).projects[id].revision + CountAccepted(sha256, ops, i, j, id)
    decreases j
  {
    hide Step, After, Commits;
    if i < j {
      RevisionCountsCommits(sha256, ops, i, j - 1, id);
      AfterNext(sha256, ops, j - 1);
      RevisionStep(sha256, After(sha256, EMPTY, ops[..j - 1]), ops[j - 1], id);
    }
  }

  lemma {:induction false} NoneCountedNoneAccepted(sha256: Bytes -> Hash, ops: seq<Op>, i: nat, j: nat, id: Id)
    requires i <= j <= |ops| && CountAccepted(sha256, ops, i, j, id) == 0
    ensures forall k: nat | i <= k < j :: !AcceptedAt(sha256, ops, k, id)
    decreases j
  {
    hide AcceptedAt;
    if i < j {
      NoneCountedNoneAccepted(sha256, ops, i, j - 1, id);
    }
  }

  /** A commit accepted on top of the revision a client read: nobody else committed in between. */
  lemma {:induction false} NoLostUpdate(sha256: Bytes -> Hash, ops: seq<Op>, i: nat, j: nat, id: Id)
    requires i <= j < |ops| && LiveThrough(sha256, ops, i, j, id) && AcceptedAt(sha256, ops, j, id)
    requires ops[j].base == Some(After(sha256, EMPTY, ops[..i]).projects[id].revision)
    ensures forall k: nat | i <= k < j :: !AcceptedAt(sha256, ops, k, id)
  {
    hide Step, After, CountAccepted;
    RevisionCountsCommits(sha256, ops, i, j, id);
    AcceptedBase(After(sha256, EMPTY, ops[..j]), ops[j]);
    NoneCountedNoneAccepted(sha256, ops, i, j, id);
  }

  lemma AcceptedBase(db: Db, op: Op)
    requires Commits(db, op)
    ensures Accepts(db, op.id, op.base) && op.body.tree.Values <= db.blobs.Keys
  {
  }

  /** A row that appears was made by an accepted commit. */
  lemma {:induction false} CreatedBetween(sha256: Bytes -> Hash, ops: seq<Op>, k: nat, j: nat, id: Id)
    requires k <= j <= |ops| && id !in After(sha256, EMPTY, ops[..k]).projects && id in After(sha256, EMPTY, ops[..j]).projects
    ensures exists m: nat :: k <= m < j && AcceptedAt(sha256, ops, m, id)
    decreases j
  {
    hide Step, After, Commits;
    AfterNext(sha256, ops, j - 1);
    if id in After(sha256, EMPTY, ops[..j - 1]).projects {
      CreatedBetween(sha256, ops, k, j - 1, id);
    } else {
      RevisionStep(sha256, After(sha256, EMPTY, ops[..j - 1]), ops[j - 1], id);
      assert AcceptedAt(sha256, ops, j - 1, id);
    }
  }

  /** A listing finds the project deleted for more than 30 days, and purges it. */
  ghost predicate PurgedAt(sha256: Bytes -> Hash, ops: seq<Op>, k: nat, id: Id)
    requires k < |ops|
  {
    var db := After(sha256, EMPTY, ops[..k]);
    ops[k].ListOp? && id in db.projects && Due(db.projects[id], ops[k].now)
  }

  /** A life ends between two moments exactly when a listing purges the row between them. */
  lemma {:induction false} LifeEndsByListing(sha256: Bytes -> Hash, ops: seq<Op>, i: nat, j: nat, id: Id)
    requires i <= j <= |ops| && id in After(sha256, EMPTY, ops[..i]).projects
    ensures LiveThrough(sha256, ops, i, j, id) <==> forall k: nat | i <= k < j :: !PurgedAt(sha256, ops, k, id)
    decreases j
  {
    hide Step, After, Due;
    if i < j {
      LifeEndsByListing(sha256, ops, i, j - 1, id);
      AfterNext(sha256, ops, j - 1);
      assert LiveThrough(sha256, ops, i, j, id) <==>
        LiveThrough(sha256, ops, i, j - 1, id) && id in After(sha256, EMPTY, ops[..j]).projects;
      if id in After(sha256, EMPTY, ops[..j - 1]).projects {
        LifeEndsOnlyWhenDue(sha256, After(sha256, EMPTY, ops[..j - 1]), ops[j - 1], id);
        assert PurgedAt(sha256, ops, j - 1, id) <==> id !in After(sha256, EMPTY, ops[..j]).projects;
      }
    }
  }

  /**
   In any run: a commit is accepted on top of the revision a client read though another was accepted in
   between, if and only if the project was purged in between, so that its revisions began at 1 again.
   */
  lemma {:induction false} UnseenOnlyAfterPurge(sha256: Bytes -> Hash, ops: seq<Op>, i: nat, j: nat, id: Id)
    requires i <= j < |ops| && id in After(sha256, EMPTY, ops[..i]).projects && AcceptedAt(sha256, ops, j, id)
    requires ops[j].base == Some(After(sha256, EMPTY, ops[..i]).projects[id].revision)
    ensures (exists k: nat :: i <= k < j && AcceptedAt(sha256, ops, k, id)) <==>
      (exists k: nat :: i <= k < j && PurgedAt(sha256, ops, k, id))
  {
    hide Step, After, Commits, PurgedAt;
    LifeEndsByListing(sha256, ops, i, j, id);
    if LiveThrough(sha256, ops, i, j, id) {
      NoLostUpdate(sha256, ops, i, j, id);
    } else {
      var k: nat :| i <= k <= j && id !in After(sha256, EMPTY, ops[..k]).projects;
      AcceptedBase(After(sha256, EMPTY, ops[..j]), ops[j]);
      PositiveRevision(sha256, ops[..i], id);
      CreatedBetween(sha256, ops, k, j, id);
    }
  }

  lemma PositiveRevision(sha256: Bytes -> Hash, ops: seq<Op>, id: Id)
    requires id in After(sha256, EMPTY, ops).projects
    ensures After(sha256, EMPTY, ops).projects[id].revision > 0
  {
    hide After;
    CurrentTreeIsNewestRevision(sha256, ops, id);
  }

  /** In one life the accepted commits are a chain: the first starts from nothing, the next from 1, 2, ... */
  lemma {:induction false} CommitsFormAChain(sha256: Bytes -> Hash, ops: seq<Op>, created: nat, j: nat, id: Id)
    requires created < j < |ops| && id !in After(sha256, EMPTY, ops[..created]).projects
    requires LiveThrough(sha256, ops, created + 1, j, id) && AcceptedAt(sha256, ops, j, id)
    ensures AcceptedAt(sha256, ops, created, id) && ops[created].base in {None, Some(0)}
    ensures ops[j].base == Some(CountAccepted(sha256, ops, created, j, id))
  {
    hide Step, After, Commits, CountAccepted;
    assert id in After(sha256, EMPTY, ops[..created + 1]).projects;
    AfterNext(sha256, ops, created);
    RevisionStep(sha256, After(sha256, EMPTY, ops[..created]), ops[created], id);
    RevisionCountsCommits(sha256, ops, created + 1, j, id);
    CountSplit(sha256, ops, created, j, id);
    AcceptedBase(After(sha256, EMPTY, ops[..j]), ops[j]);
  }

  lemma {:induction false} CountSplit(sha256: Bytes -> Hash, ops: seq<Op>, i: nat, j: nat, id: Id)
    requires i < j <= |ops|
    ensures CountAccepted(sha256, ops, i, j, id)
      == (if AcceptedAt(sha256, ops, i, id) then 1 else 0) + CountAccepted(sha256, ops, i + 1, j, id)
    decreases j
  {
    hide AcceptedAt;
    if i + 1 < j {
      CountSplit(sha256, ops, i, j - 1, id);
    }
  }

  // ----- soft delete -----

  /** A stored blob is dropped or kept, never overwritten. */
  lemma BlobNeverOverwritten(sha256: Bytes -> Hash, db: Db, op: Op, h: Hash)
    requires h in db.blobs && h in Step(sha256, db, op).blobs
    ensures Step(sha256, db, op).blobs[h] == db.blobs[h]
  {
    hide CommittedFiles, CommittedRevisions, CommitReply, CommittedProject, UploadReply, Used, Survives;
  }

  ghost predicate SameRows(a: Db, b: Db, id: Id) {
    && id in a.projects && id in b.projects && a.projects[id] == b.projects[id]
    && (forall k: (Id, Path) | k.0 == id :: k in a.files <==> k in b.files)
    && (forall k | k in a.files && k.0 == id :: a.files[k] == b.files[k])
    && (forall k: (Id, nat) | k.0 == id :: k in a.revisions <==> k in b.revisions)
    && (forall k | k in a.revisions && k.0 == id :: a.revisions[k] == b.revisions[k])
  }

  predicate UsedBy(db: Db, id: Id, h: Hash) {
    || (exists k :: k in db.files && k.0 == id && db.files[k].sha == h)
    || (exists k :: k in db.revisions && k.0 == id && h in db.revisions[k].tree.Values)
  }

  /** Every blob a project uses in the first state is stored, with the same content, in the second. */
  ghost predicate SameBlobs(a: Db, b: Db, id: Id) {
    forall h | UsedBy(a, id, h) :: h in a.blobs && h in b.blobs && a.blobs[h] == b.blobs[h]
  }

  /** A request about other projects, or a purge not past this time. */
  predicate Bystander(op: Op, id: Id, until: int) {
    match op
    case UploadOp(_) => true
    case ListOp(now) => now <= until
    case _ => op.id != id
  }

  lemma BystanderKeepsRows(sha256: Bytes -> Hash, db: Db, op: Op, id: Id, until: int)
    requires id in db.projects && Bystander(op, id, until)
    requires db.projects[id].deletedAt.Some? ==> until <= db.projects[id].deletedAt.value + DELETED_KEPT
    ensures SameRows(db, Step(sha256, db, op), id)
  {
    hide CommitReply, CommittedProject, UploadReply, Used, NewBlobs, WantedSizes;
    match op
    case CommitOp(other, base, body, now) =>
      hide SameRows;
      SameAsItself(db, id);
      if Commits(db, op) {
        AcceptedBase(db, op);
        CommitSparesOthers(db, other, base, body, now, id);
      }
    case ListOp(now) => PurgeSpares(db, now, id);
    case _ =>
  }

  lemma SameAsItself(db: Db, id: Id)
    requires id in db.projects
    ensures SameRows(db, db, id)
  {
  }

  lemma CommitSparesOthers(db: Db, other: Id, base: Option<nat>, body: CommitBody, now: int, id: Id)
    requires id in db.projects && other != id && body.tree.Values <= db.blobs.Keys && CommitReply(db, other, base, body.tree).Committed?
    ensures SameRows(db, Commit(db, other, base, body, now), id)
  {
    hide CommitReply, CommittedProject, Used, CommittedFiles, CommittedRevisions;
    OtherProjectsRows(db, other, body.device, body.tree, id);
  }

  lemma PurgeSpares(db: Db, now: int, id: Id)
    requires id in db.projects && !Due(db.projects[id], now)
    ensures SameRows(db, Purge(db, now), id)
  {
    hide Used, Due;
  }

  lemma OtherProjectsRows(db: Db, id: Id, device: string, tree: Tree, other: Id)
    requires tree.Values <= db.blobs.Keys && other != id
    ensures forall k: (Id, Path) | k.0 == other ::
      (k in db.files <==> k in CommittedFiles(db, id, tree)) && (k in db.files ==> CommittedFiles(db, id, tree)[k] == db.files[k])
    ensures forall k: (Id, nat) | k.0 == other ::
      (k in db.revisions <==> k in CommittedRevisions(db, id, device, tree))
      && (k in db.revisions ==> CommittedRevisions(db, id, device, tree)[k] == db.revisions[k])
  {
    hide CommittedFile;
  }

  lemma SameRowsSameUse(a: Db, b: Db, id: Id, h: Hash)
    requires SameRows(a, b, id) && UsedBy(a, id, h)
    ensures UsedBy(b, id, h) && Used(b, h)
  {
    if k :| k in a.files && k.0 == id && a.files[k].sha == h {
      assert k in b.files;
    } else {
      var k :| k in a.revisions && k.0 == id && h in a.revisions[k].tree.Values;
      assert k in b.revisions;
    }
  }

  /** Any number of bystanders leave a project's rows as they were, and its blobs stored. */
  lemma {:induction false} BystandersKeep(sha256: Bytes -> Hash, db: Db, history: History, ops: seq<Op>, id: Id, until: int)
    requires Inv(sha256, db, history) && id in db.projects
    requires db.projects[id].deletedAt.Some? ==> until <= db.projects[id].deletedAt.value + DELETED_KEPT
    requires forall op | op in ops :: Bystander(op, id, until)
    ensures SameRows(db, After(sha256, db, ops), id) && SameBlobs(db, After(sha256, db, ops), id)
  {
    hide Step, Record, Used, UsedBy, Bystander, NothingDangles, BlobsSound;
    hide HistoryKept, TreeIsNewest, StampsAreStarts, SizesConserved;
    UsedBlobsAreStored(sha256, db);
    if ops == [] {
      forall h | UsedBy(db, id, h) ensures h in db.blobs { SameRowsSameUse(db, db, id, h); }
    } else {
      var before, op := ops[..|ops| - 1], ops[|ops| - 1];
      var mid, after := After(sha256, db, before), After(sha256, db, ops);
      BystandersKeep(sha256, db, history, before, id, until);
      BystanderKeepsRows(sha256, mid, op, id, until);
      RunKeeps(sha256, db, history, ops);
      UsedBlobsAreStored(sha256, after);
      forall h | UsedBy(db, id, h) ensures h in after.blobs && after.blobs[h] == db.blobs[h] {
        SameRowsSameUse(db, after, id, h);
        BlobNeverOverwritten(sha256, mid, op, h);
      }
    }
  }

  /**
   A delete, any requests about other projects and any purges within the 30 days, then a restore:
   the same project row, files, history and blobs, but for the date it was last touched.
   */
  lemma DeleteThenRestore(sha256: Bytes -> Hash, before: seq<Op>, id: Id, base: Option<nat>, deleted: int, between: seq<Op>, restored: int)
    requires id in After(sha256, EMPTY, before).projects
    requires var db := After(sha256, EMPTY, before);
      db.projects[id].deletedAt.None? && DeleteReply(db, id, base, deleted).Deleted?
    requires forall op | op in between :: Bystander(op, id, deleted + DELETED_KEPT)
    ensures var db := After(sha256, EMPTY, before);
      var back := Restore(After(sha256, Delete(db, id, base, deleted), between), id, restored);
      SameRows(db.(projects := db.projects[id := db.projects[id].(updatedAt := restored)]), back, id) && SameBlobs(db, back, id)
  {
    hide After, UsedBy, Used, Bystander, NothingDangles, BlobsSound, HistoryAfter;
    hide HistoryKept, TreeIsNewest, StampsAreStarts, SizesConserved, RevisionsCount;
    var db, history := After(sha256, EMPTY, before), HistoryAfter(sha256, EMPTY, map[], before);
    Reachable(sha256, before);
    var gone := Delete(db, id, base, deleted);
    DatesKeep(sha256, db, history, id, gone.projects[id]);
    BystandersKeep(sha256, gone, history, between, id, deleted + DELETED_KEPT);
    var back := Restore(After(sha256, gone, between), id, restored);
    forall h | UsedBy(db, id, h) ensures h in db.blobs && h in back.blobs && back.blobs[h] == db.blobs[h] {
      assert UsedBy(gone, id, h) by { SameUse(db, gone, id, h); }
    }
  }

  lemma SameUse(a: Db, b: Db, id: Id, h: Hash)
    requires a.files == b.files && a.revisions == b.revisions
    ensures UsedBy(a, id, h) == UsedBy(b, id, h)
  {
  }

  predicate AboutOthers(op: Op, id: Id) { op.UploadOp? || op.ListOp? || op.id != id }

  lemma OthersKeepRow(sha256: Bytes -> Hash, db: Db, op: Op, id: Id)
    requires AboutOthers(op, id)
    ensures var after := Step(sha256, db, op).projects;
      && (id in after <==> id in db.projects && !(op.ListOp? && Due(db.projects[id], op.now)))
      && (id in after ==> after[id] == db.projects[id])
  {
    hide CommittedFiles, CommittedRevisions, CommitReply, CommittedProject, UploadReply, Used, Due;
  }

  /**
   A restore has no deadline of its own: however late, a deleted project can be restored if and only if
   no listing has come more than 30 days after the delete.
   */
  lemma {:induction false} RestorableUntilListed(sha256: Bytes -> Hash, db: Db, ops: seq<Op>, id: Id)
    requires id in db.projects && db.projects[id].deletedAt.Some?
    requires forall op | op in ops :: AboutOthers(op, id)
    ensures var after := After(sha256, db, ops).projects;
      && (id in after <==> forall op | op in ops && op.ListOp? :: op.now <= db.projects[id].deletedAt.value + DELETED_KEPT)
      && (id in after ==> after[id] == db.projects[id])
  {
    hide Step, AboutOthers;
    if ops != [] {
      var front, last := ops[..|ops| - 1], ops[|ops| - 1];
      assert ops == front + [last];
      assert last in ops && forall op | op in front :: op in ops;
      RestorableUntilListed(sha256, db, front, id);
      OthersKeepRow(sha256, After(sha256, db, front), last, id);
    }
  }
}
