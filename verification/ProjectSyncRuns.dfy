/** Every run of project sync requests: the tables agree, and no update or delete loses work. */
module ProjectSyncRuns {
  import opened Prelude
  import opened Sums
  import opened ProjectSync
  import opened ProjectSyncInvariant

  // ----- every request keeps the invariant -----

  lemma CommitKeeps(sha256: Bytes -> Hash, db: Db, history: History, id: Id, base: Option<nat>, body: CommitBody, now: int)
    requires Inv(sha256, db, history) && CommitReply(db, id, base, body.tree).Committed?
    ensures Inv(sha256, Commit(db, id, base, body, now), Extended(history, id, body.tree))
  {
    hide StampsAreStarts, TreeIsNewest, HistoryKept, NothingDangles, BlobsSound, SizeOfFiles;
    hide Collect, CommittedFiles, CommittedRevisions, Total;
    var tree := body.tree;
    var files := CommittedFiles(db, id, tree);
    var row := CommittedProject(db, id, body, now);
    var revisions := CommittedRevisions(db, id, body.device, tree);
    CommitKeepsHistory(db, history, id, body.device, tree);
    CommitKeepsTree(db, history, id, tree);
    CommitKeepsStamps(db, history, id, tree);
    CommitKeepsBlobs(sha256, db, db.projects[id := row], id, body.device, tree);
    CommitKeepsSizes(sha256, db, id, row, tree);
    CollectKeeps(sha256, Db(db.projects[id := row], files, db.blobs, revisions));
  }

  lemma CommitKeepsSizes(sha256: Bytes -> Hash, db: Db, id: Id, row: ProjectRow, tree: Tree)
    requires NothingDangles(db) && BlobsSound(sha256, db) && SizesConserved(db) && tree.Values <= db.blobs.Keys
    requires row.size == Total(WantedSizes(db, tree)) <= MAX_PROJECT
    requires Total(ProjectSizes(db.projects - {id})) + row.size <= QUOTA
    ensures ProjectsConserved(db.projects[id := row], CommittedFiles(db, id, tree))
  {
    hide Total, FileSizes, FilesOf, CommittedFiles;
    CommittedProjectSize(sha256, db, id, tree);
    CommittedTotal(db.projects, id, row);
    forall other | other in db.projects && other != id
      ensures SizeOfFiles(CommittedFiles(db, id, tree), other, db.projects[other])
    {
      OtherFilesUntouched(db, id, tree, other);
    }
  }

  lemma {:induction false} DecodedSound(sha256: Bytes -> Hash, items: seq<BlobIn>)
    requires Decode(sha256, items).Ok?
    ensures var decoded := Decode(sha256, items).value;
      forall h | h in decoded :: sha256(decoded[h]) == h && |decoded[h]| <= MAX_FILE
  {
    if items != [] {
      DecodedSound(sha256, items[..|items| - 1]);
    }
  }

  lemma {:induction false} UploadKeeps(sha256: Bytes -> Hash, db: Db, history: History, items: seq<BlobIn>)
    requires Inv(sha256, db, history)
    ensures Inv(sha256, Upload(sha256, db, items), history)
  {
    if UploadReply(sha256, db, items).Uploaded? {
      DecodedSound(sha256, items);
      BlobsAdded(sha256, db, NewBlobs(db, Decode(sha256, items).value));
    }
  }

  lemma BlobsAdded(sha256: Bytes -> Hash, db: Db, added: map<Hash, BlobRow>)
    requires NothingDangles(db) && BlobsSound(sha256, db) && SizesConserved(db)
    requires added.Keys !! db.blobs.Keys
    requires forall h | h in added :: sha256(added[h].content) == h && added[h].size == |added[h].content| <= MAX_FILE
    requires Total(BlobSizes(db.blobs)) + Total(BlobSizes(added)) <= QUOTA + MAX_PROJECT
    ensures var after := db.(blobs := db.blobs + added);
      NothingDangles(after) && BlobsSound(sha256, after) && SizesConserved(after)
  {
    hide Total, ProjectsConserved, BlobSizes;
    AddedSizes(db.blobs, added);
    var after := db.(blobs := db.blobs + added);
    assert forall k | k in after.revisions :: after.revisions[k].tree.Values <= db.blobs.Keys;
  }

  lemma AddedSizes(blobs: map<Hash, BlobRow>, added: map<Hash, BlobRow>)
    requires added.Keys !! blobs.Keys
    ensures Total(BlobSizes(blobs + added)) == Total(BlobSizes(blobs)) + Total(BlobSizes(added))
  {
    hide Total;
    TotalSplit(BlobSizes(blobs + added), BlobSizes(blobs), BlobSizes(added));
  }

  /** A row that changes only its dates. */
  lemma DatesKeep(sha256: Bytes -> Hash, db: Db, history: History, id: Id, row: ProjectRow)
    requires Inv(sha256, db, history) && id in db.projects
    requires row.revision == db.projects[id].revision && row.size == db.projects[id].size
    ensures Inv(sha256, db.(projects := db.projects[id := row]), history)
  {
    hide StampsAreStarts, TreeIsNewest, HistoryKept, Total, FileSizes, FilesOf;
    var after := db.(projects := db.projects[id := row]);
    assert ProjectSizes(after.projects) == ProjectSizes(db.projects);
    assert SizeOfFiles(db.files, id, db.projects[id]);
  }

  lemma PurgeKeepsRows(db: Db, history: History, now: int)
    requires RevisionsCount(db.projects, history) && HistoryKept(db.revisions, history)
    requires TreeIsNewest(db.files, history) && StampsAreStarts(db.files, history)
    ensures var after, log := Remaining(db, now), map id | id in history && Survives(db, now, id) :: history[id];
      && RevisionsCount(after.projects, log) && HistoryKept(after.revisions, log)
      && TreeIsNewest(after.files, log) && StampsAreStarts(after.files, log)
  {
    hide StartsRun, Kept, Survives;
  }

  lemma PurgeKeepsSizes(sha256: Bytes -> Hash, db: Db, now: int)
    requires NothingDangles(db) && BlobsSound(sha256, db) && SizesConserved(db)
    ensures NothingDangles(Remaining(db, now)) && BlobsSound(sha256, Remaining(db, now))
    ensures SizesConserved(Remaining(db, now))
  {
    hide Total, FileSizes, FilesOf, Survives;
    var after := Remaining(db, now);
    forall id | id in after.projects ensures SizeOfFiles(after.files, id, after.projects[id]) {
      SurvivingFiles(db, now, id);
    }
    TotalSubset(ProjectSizes(after.projects), ProjectSizes(db.projects));
  }

  lemma SurvivingFiles(db: Db, now: int, id: Id)
    requires Survives(db, now, id)
    ensures FilesOf(Remaining(db, now).files, id) == FilesOf(db.files, id)
  {
    hide Survives;
    assert PathsOf(Remaining(db, now).files, id) == PathsOf(db.files, id);
  }

  lemma PurgeKeeps(sha256: Bytes -> Hash, db: Db, history: History, now: int)
    requires Inv(sha256, db, history)
    ensures Inv(sha256, Purge(db, now), map id | id in history && Survives(db, now, id) :: history[id])
  {
    hide StampsAreStarts, TreeIsNewest, HistoryKept, NothingDangles, BlobsSound, SizesConserved, RevisionsCount;
    hide Collect, Survives;
    PurgeKeepsRows(db, history, now);
    PurgeKeepsSizes(sha256, db, now);
    CollectKeeps(sha256, Remaining(db, now));
  }

  lemma RefusedCommitChangesNothing(db: Db, id: Id, base: Option<nat>, body: CommitBody, now: int)
    requires !CommitReply(db, id, base, body.tree).Committed?
    ensures Commit(db, id, base, body, now) == db
  {
    hide CommitReply;
  }

  lemma StepKeeps(sha256: Bytes -> Hash, db: Db, history: History, op: Op)
    requires Inv(sha256, db, history)
    ensures Inv(sha256, Step(sha256, db, op), Record(db, history, op))
  {
    hide Inv, Commit, Upload, CommitReply, Purge, Survives;
    match op
    case UploadOp(items) => UploadKeeps(sha256, db, history, items);
    case CommitOp(id, base, body, now) =>
      if Commits(db, op) {
        CommitKeeps(sha256, db, history, id, base, body, now);
      } else {
        RefusedCommitChangesNothing(db, id, base, body, now);
      }
    case DeleteOp(id, base, now) =>
      if id in db.projects {
        DatesKeep(sha256, db, history, id, db.projects[id].(deletedAt := Some(now), updatedAt := now));
      }
    case RestoreOp(id, now) =>
      if id in db.projects {
        DatesKeep(sha256, db, history, id, db.projects[id].(deletedAt := None, updatedAt := now));
      }
    case ListOp(now) => PurgeKeeps(sha256, db, history, now);
  }

  lemma {:induction false} RunKeeps(sha256: Bytes -> Hash, db: Db, history: History, ops: seq<Op>)
    requires Inv(sha256, db, history)
    ensures Inv(sha256, After(sha256, db, ops), HistoryAfter(sha256, db, history, ops))
  {
    hide Inv, Step, Record;
    if ops != [] {
      var before := ops[..|ops| - 1];
      RunKeeps(sha256, db, history, before);
      StepKeeps(sha256, After(sha256, db, before), HistoryAfter(sha256, db, history, before), ops[|ops| - 1]);
    }
  }

  lemma {:induction false} Reachable(sha256: Bytes -> Hash, ops: seq<Op>)
    ensures Inv(sha256, After(sha256, EMPTY, ops), HistoryAfter(sha256, EMPTY, map[], ops))
  {
    hide After, HistoryAfter;
    RunKeeps(sha256, EMPTY, map[], ops);
  }

  // ----- the four tables agree -----

  /** The kept revisions are the last KEEP_REVISIONS, and the newest of them is the current tree. */
  lemma {:induction false} CurrentTreeIsNewestRevision(sha256: Bytes -> Hash, ops: seq<Op>, id: Id)
    requires id in After(sha256, EMPTY, ops).projects
    ensures var db := After(sha256, EMPTY, ops);
      var r := db.projects[id].revision;
      && r >= 1
      && (forall n: nat :: (id, n) in db.revisions <==> (if r <= 20 then 1 else r - 19) <= n <= r)
      && db.revisions[(id, r)].tree == map path | path in FilesOf(db.files, id) :: FilesOf(db.files, id)[path].sha
  {
    hide After, HistoryAfter, StampsAreStarts, NothingDangles, BlobsSound, SizesConserved;
    Reachable(sha256, ops);
    var db, history := After(sha256, EMPTY, ops), HistoryAfter(sha256, EMPTY, map[], ops);
    var r := db.projects[id].revision;
    assert (id, r) in db.revisions;
    assert PathsOf(db.files, id) == Newest(history[id]).Keys;
    forall path | path in Newest(history[id])
      ensures db.files[(id, path)].sha == Newest(history[id])[path]
    {
    }
  }

  /** A file's stamp is the start of its newest unbroken run, as far back as revisions are kept. */
  lemma {:induction false} StampIsStartOfRun(sha256: Bytes -> Hash, ops: seq<Op>, id: Id, path: Path)
    requires (id, path) in After(sha256, EMPTY, ops).files
    ensures var db := After(sha256, EMPTY, ops);
      var file := db.files[(id, path)];
      && id in db.projects && 1 <= file.revision <= db.projects[id].revision
      && (forall n | file.revision <= n && (id, n) in db.revisions ::
            path in db.revisions[(id, n)].tree && db.revisions[(id, n)].tree[path] == file.sha)
      && ((id, file.revision - 1) in db.revisions ==>
            !(path in db.revisions[(id, file.revision - 1)].tree && db.revisions[(id, file.revision - 1)].tree[path] == file.sha))
  {
    hide After, HistoryAfter, TreeIsNewest, NothingDangles, BlobsSound, SizesConserved;
    Reachable(sha256, ops);
    var db, history := After(sha256, EMPTY, ops), HistoryAfter(sha256, EMPTY, map[], ops);
    var file := db.files[(id, path)];
    var trees := history[id];
    assert StartsRun(trees, path, file.sha, file.revision);
    forall n | file.revision <= n && (id, n) in db.revisions
      ensures path in db.revisions[(id, n)].tree && db.revisions[(id, n)].tree[path] == file.sha
    {
      assert Holds(trees, n, path, file.sha);
    }
  }

  lemma UsedBlobsAreStored(sha256: Bytes -> Hash, db: Db)
    requires NothingDangles(db) && BlobsSound(sha256, db)
    ensures forall h | Used(db, h) :: h in db.blobs && sha256(db.blobs[h].content) == h
  {
    forall h | UsedByRevision(db.revisions, h) ensures h in db.blobs {
      var k :| k in db.revisions && h in db.revisions[k].tree.Values;
      assert db.revisions[k].tree.Values <= db.blobs.Keys;
    }
  }

  /** Stored blobs: always enough, and right after a commit or a purge exactly what is used. */
  lemma {:induction false} BlobsStored(sha256: Bytes -> Hash, ops: seq<Op>, op: Op)
    ensures var db := After(sha256, EMPTY, ops);
      && (forall h | Used(db, h) :: h in db.blobs && sha256(db.blobs[h].content) == h)
      && (op.ListOp? || Commits(db, op) ==>
            forall h :: h in Step(sha256, db, op).blobs <==> Used(Step(sha256, db, op), h))
  {
    hide After, HistoryAfter, Step, Record, Commits, Used, NothingDangles, BlobsSound;
    hide StampsAreStarts, TreeIsNewest, HistoryKept, SizesConserved;
    var db, history := After(sha256, EMPTY, ops), HistoryAfter(sha256, EMPTY, map[], ops);
    Reachable(sha256, ops);
    UsedBlobsAreStored(sha256, db);
    StepKeeps(sha256, db, history, op);
    UsedBlobsAreStored(sha256, Step(sha256, db, op));
    if op.ListOp? || Commits(db, op) {
      CollectedBlobsAreUsed(sha256, db, op);
    }
  }

  lemma CollectedBlobsAreUsed(sha256: Bytes -> Hash, db: Db, op: Op)
    requires op.ListOp? || Commits(db, op)
    ensures forall h | h in Step(sha256, db, op).blobs :: Used(Step(sha256, db, op), h)
  {
    hide Total, CommittedFiles, CommittedRevisions, CommitReply, CommittedProject, Survives;
  }

  /** Sizes add up from blobs to files to projects, within every limit. */
  lemma {:induction false} SizesAddUp(sha256: Bytes -> Hash, ops: seq<Op>)
    ensures var db := After(sha256, EMPTY, ops);
      && (forall k | k in db.files :: db.files[k].sha in db.blobs && db.files[k].size == |db.blobs[db.files[k].sha].content|)
      && (forall id | id in db.projects ::
            db.projects[id].size == Total(FileSizes(FilesOf(db.files, id))) && db.projects[id].size <= MAX_PROJECT)
      && Total(ProjectSizes(db.projects)) <= QUOTA
      && Total(BlobSizes(db.blobs)) <= QUOTA + MAX_PROJECT
  {
    Reachable(sha256, ops);
    var db := After(sha256, EMPTY, ops);
    forall id | id in db.projects
      ensures db.projects[id].size == Total(FileSizes(FilesOf(db.files, id))) && db.projects[id].size <= MAX_PROJECT
    {
      assert SizeOfFiles(db.files, id, db.projects[id]);
    }
  }
}
