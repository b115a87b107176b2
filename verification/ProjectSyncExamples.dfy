/** Runs from empty tables in which the 30 days after a delete do not work as described. */
module ProjectSyncExamples {
  import opened Prelude
  import opened Sums
  import opened ProjectSync
  import opened ProjectSyncSafety

  const NOTHING := CommitBody("", "", "", map[])

  lemma OneMore(sha256: Bytes -> Hash, ops: seq<Op>, op: Op)
    ensures After(sha256, EMPTY, ops + [op]) == Step(sha256, After(sha256, EMPTY, ops), op)
  {
    hide Step;
    assert (ops + [op])[..|ops|] == ops;
  }

  /** A tree of empty files fits in a store of empty blobs and projects. */
  predicate Weightless(db: Db) {
    (forall id | id in db.projects :: db.projects[id].size == 0) && (forall h | h in db.blobs :: db.blobs[h].size == 0)
  }

  lemma WeightlessCommit(db: Db, id: Id, base: Option<nat>, tree: Tree)
    requires Weightless(db) && Accepts(db, id, base) && tree.Values <= db.blobs.Keys
    ensures CommitReply(db, id, base, tree) == Committed(NextRevision(db, id))
    ensures Total(WantedSizes(db, tree)) == 0
  {
    hide Total;
    ZeroTotal(ProjectSizes(db.projects - {id}));
    forall path | path in tree ensures WantedSizes(db, tree)[path] == 0 { assert tree[path] in tree.Values; }
    ZeroTotal(WantedSizes(db, tree));
  }

  lemma CommitFields(db: Db, id: Id, base: Option<nat>, body: CommitBody, now: int)
    requires CommitReply(db, id, base, body.tree).Committed? && body.tree.Values <= db.blobs.Keys
    ensures var after := Commit(db, id, base, body, now);
      && after.projects == db.projects[id := CommittedProject(db, id, body, now)]
      && after.files == CommittedFiles(db, id, body.tree)
      && (forall h | h in after.blobs :: h in db.blobs && after.blobs[h] == db.blobs[h])
  {
    hide CommitReply, CommittedFiles, CommittedRevisions, CommittedProject, Used;
  }

  lemma FilesCommitted(db: Db, id: Id, tree: Tree)
    requires tree.Values <= db.blobs.Keys
    ensures forall path :: (id, path) in CommittedFiles(db, id, tree) <==> path in tree
  {
    hide CommittedFile;
  }

  lemma SmallCommit(db: Db, id: Id, base: Option<nat>, body: CommitBody, now: int)
    requires Weightless(db) && Accepts(db, id, base) && body.tree.Values <= db.blobs.Keys
    ensures CommitReply(db, id, base, body.tree).Committed?
    ensures var after := Commit(db, id, base, body, now);
      && Weightless(after) && id in after.projects
      && after.projects[id].revision == NextRevision(db, id) && after.projects[id].deletedAt.None?
      && (forall path :: (id, path) in after.files <==> path in body.tree)
  {
    hide Total, CommitReply, CommittedFiles, Commit, WantedSizes;
    WeightlessCommit(db, id, base, body.tree);
    CommitFields(db, id, base, body, now);
    FilesCommitted(db, id, body.tree);
  }

  /** One project, committed and deleted at time 0. */
  const COMMIT: Op := CommitOp("p", None, NOTHING, 0)
  const DELETE: Op := DeleteOp("p", None, 0)

  lemma FirstCommit(sha256: Bytes -> Hash)
    ensures var db := After(sha256, EMPTY, [COMMIT]);
      Weightless(db) && "p" in db.projects && db.projects["p"].revision == 1 && db.projects["p"].deletedAt.None?
    ensures AcceptedAt(sha256, [COMMIT], 0, "p")
  {
    hide Commit, CommitReply;
    SmallCommit(EMPTY, "p", None, NOTHING, 0);
    OneMore(sha256, [], COMMIT);
    assert [] + [COMMIT] == [COMMIT] && [COMMIT][..0] == [];
  }

  lemma DeleteStep(sha256: Bytes -> Hash, db: Db)
    requires Weightless(db) && "p" in db.projects && db.projects["p"].deletedAt.None?
    ensures var after := Step(sha256, db, DELETE);
      && Weightless(after) && "p" in after.projects
      && after.projects["p"].revision == db.projects["p"].revision && after.projects["p"].deletedAt == Some(0)
  {
  }

  lemma FirstDelete(sha256: Bytes -> Hash)
    ensures var db := After(sha256, EMPTY, [COMMIT, DELETE]);
      Weightless(db) && "p" in db.projects && db.projects["p"].revision == 1 && db.projects["p"].deletedAt == Some(0)
  {
    hide After, Step, Weightless;
    FirstCommit(sha256);
    DeleteStep(sha256, After(sha256, EMPTY, [COMMIT]));
    OneMore(sha256, [COMMIT], DELETE);
    assert [COMMIT] + [DELETE] == [COMMIT, DELETE];
  }

  /** A restore one second past the 30 days, when nobody has listed the projects since the delete. */
  lemma RestoredTooLate(sha256: Bytes -> Hash)
    ensures var ops := [COMMIT, DELETE]; var late := ops + [RestoreOp("p", DELETED_KEPT + 1)];
      var db, after := After(sha256, EMPTY, ops), After(sha256, EMPTY, late);
      && "p" in db.projects && Due(db.projects["p"], DELETED_KEPT + 1)
      && "p" in after.projects && after.projects["p"].deletedAt.None? && after.projects["p"].revision == 1
  {
    FirstDelete(sha256);
    OneMore(sha256, [COMMIT, DELETE], RestoreOp("p", DELETED_KEPT + 1));
    hide After;
  }

  // ----- a commit overwritten unseen -----

  const LIST: Op := ListOp(DELETED_KEPT + 1)

  lemma Listed(sha256: Bytes -> Hash, db: Db)
    requires Weightless(db) && "p" in db.projects && db.projects["p"].deletedAt == Some(0)
    ensures Weightless(Step(sha256, db, LIST)) && "p" !in Step(sha256, db, LIST).projects
  {
    hide Used;
  }

  /** An upload of one empty file. */
  function Sending(sha256: Bytes -> Hash): Op { UploadOp([BlobIn(sha256([]), Some([]))]) }

  lemma Sent(sha256: Bytes -> Hash, db: Db)
    requires Weightless(db)
    ensures var after := Step(sha256, db, Sending(sha256));
      Weightless(after) && after.projects == db.projects && sha256([]) in after.blobs
  {
    var items := [BlobIn(sha256([]), Some([]))];
    assert items[..0] == [];
    assert Decode(sha256, items) == Ok(map[sha256([]) := []]);
    hide Total, Decode;
    ZeroTotal(BlobSizes(db.blobs));
    ZeroTotal(BlobSizes(NewBlobs(db, map[sha256([]) := []])));
  }

  /** The second computer makes the project again, with a file; the first commits over it, from revision 1. */
  function Remaking(sha256: Bytes -> Hash): Op { CommitOp("p", None, CommitBody("", "", "", map["sketch/a" := sha256([])]), DELETED_KEPT + 1) }
  const OVERWRITE: Op := CommitOp("p", Some(1), NOTHING, DELETED_KEPT + 1)

  lemma Remade(sha256: Bytes -> Hash, db: Db)
    requires Weightless(db) && "p" !in db.projects && sha256([]) in db.blobs
    ensures var after := Step(sha256, db, Remaking(sha256));
      && Commits(db, Remaking(sha256)) && Weightless(after) && "p" in after.projects && after.projects["p"].revision == 1
      && ("p", "sketch/a") in after.files
  {
    hide Commit, CommitReply;
    var op := Remaking(sha256);
    forall h | h in op.body.tree.Values ensures h in db.blobs {
      var path :| path in op.body.tree && op.body.tree[path] == h;
    }
    SmallCommit(db, "p", None, op.body, op.now);
  }

  lemma Overwritten(sha256: Bytes -> Hash, db: Db)
    requires Weightless(db) && "p" in db.projects && db.projects["p"].revision == 1
    ensures Commits(db, OVERWRITE) && ("p", "sketch/a") !in Step(sha256, db, OVERWRITE).files
  {
    hide Commit, CommitReply;
    SmallCommit(db, "p", Some(1), NOTHING, DELETED_KEPT + 1);
  }

  /** What both computers send, in order. */
  function Both(sha256: Bytes -> Hash): seq<Op> { [COMMIT, DELETE, LIST, Sending(sha256), Remaking(sha256), OVERWRITE] }

  /**
   A client reads revision 1; the project is deleted, purged, and made again with a file by somebody else;
   then the client's commit from revision 1 is accepted, and the file it never saw is gone.
   */
  lemma CommitOverwrittenUnseen(sha256: Bytes -> Hash)
    ensures var ops := Both(sha256);
      && "p" in After(sha256, EMPTY, ops[..1]).projects
      && OVERWRITE.base == Some(After(sha256, EMPTY, ops[..1]).projects["p"].revision)
      && AcceptedAt(sha256, ops, 4, "p") && AcceptedAt(sha256, ops, 5, "p")
      && ("p", "sketch/a") in After(sha256, EMPTY, ops[..5]).files
      && ("p", "sketch/a") !in After(sha256, EMPTY, ops).files
  {
    FirstCommit(sha256);
    FirstDelete(sha256);
    hide After, Step, Commits, Weightless;
    var ops := Both(sha256);
    var list, send, remake := LIST, Sending(sha256), Remaking(sha256);
    assert ops[..1] == [COMMIT] && ops[..2] == [COMMIT, DELETE];
    Listed(sha256, After(sha256, EMPTY, ops[..2]));
    OneMore(sha256, ops[..2], list);
    assert ops[..3] == ops[..2] + [list];
    Sent(sha256, After(sha256, EMPTY, ops[..3]));
    OneMore(sha256, ops[..3], send);
    assert ops[..4] == ops[..3] + [send];
    Remade(sha256, After(sha256, EMPTY, ops[..4]));
    OneMore(sha256, ops[..4], remake);
    assert ops[..5] == ops[..4] + [remake];
    Overwritten(sha256, After(sha256, EMPTY, ops[..5]));
    OneMore(sha256, ops[..5], OVERWRITE);
    assert ops == ops[..5] + [OVERWRITE];
  }
}
