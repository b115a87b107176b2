/** What commits, uploads, deletes and restores answer and change, told by the run before them. */
module ProjectSyncAnswers {
  import opened Prelude
  import opened Sums
  import opened ProjectSync
  import opened ProjectSyncInvariant
  import opened ProjectSyncRuns
  import opened ProjectSyncSafety

  // ----- deletes and restores -----

  ghost predicate DeletedBy(before: Projects, op: Op, id: Id) {
    && op.DeleteOp? && op.id == id && id in before && before[id].deletedAt.None?
    && (op.base.None? || op.base.value == before[id].revision)
  }

  ghost predicate IsDeleted(projects: Projects, id: Id) { id in projects && projects[id].deletedAt.Some? }

  ghost predicate IsThere(projects: Projects, id: Id) { id in projects && projects[id].deletedAt.None? }

  lemma DeleteDates(sha256: Bytes -> Hash, db: Db, op: Op, id: Id)
    ensures var before, after := db.projects, Step(sha256, db, op).projects;
      && (IsThere(before, id) && IsDeleted(after, id) <==> DeletedBy(before, op, id))
      && (DeletedBy(before, op, id) ==> after[id] == before[id].(deletedAt := Some(op.now), updatedAt := op.now))
      && (IsDeleted(before, id) && IsThere(after, id) <==>
            IsDeleted(before, id) && ((op.RestoreOp? && op.id == id) || (Commits(db, op) && op.id == id)))
      && (IsDeleted(before, id) && IsDeleted(after, id) ==> after[id].deletedAt == before[id].deletedAt)
      && (id !in before && id in after ==> IsThere(after, id))
  {
    hide CommittedFiles, CommittedRevisions, CommitReply, Used, WantedSizes, UploadReply, Due;
    if Commits(db, op) { AcceptedBase(db, op); }
  }

  /**
   In any run a request marks a project deleted if and only if it is a delete of it that names no revision or the one
   the row has then; and the mark, with its date, goes only by a restore or an accepted commit.
   */
  lemma {:induction false} DeletedExactlyBy(sha256: Bytes -> Hash, ops: seq<Op>, k: nat, id: Id)
    requires k < |ops|
    ensures var before, after := After(sha256, EMPTY, ops[..k]).projects, After(sha256, EMPTY, ops[..k + 1]).projects;
      && (IsThere(before, id) && IsDeleted(after, id) <==>
            && ops[k].DeleteOp? && ops[k].id == id && IsThere(before, id)
            && (ops[k].base.None? || ops[k].base.value == before[id].revision))
      && (IsThere(before, id) && IsDeleted(after, id) ==>
            after[id] == before[id].(deletedAt := Some(ops[k].now), updatedAt := ops[k].now))
      && (IsDeleted(before, id) && IsThere(after, id) <==>
            IsDeleted(before, id) && ((ops[k].RestoreOp? && ops[k].id == id) || AcceptedAt(sha256, ops, k, id)))
      && (IsDeleted(before, id) && IsDeleted(after, id) ==> after[id].deletedAt == before[id].deletedAt)
  {
    hide Step, After, Commits;
    AfterNext(sha256, ops, k);
    DeleteDates(sha256, After(sha256, EMPTY, ops[..k]), ops[k], id);
  }

  /** A delete on the revision a client read: it goes through if and only if nobody has committed since. */
  lemma {:induction false} NoUnseenDelete(sha256: Bytes -> Hash, ops: seq<Op>, i: nat, k: nat, id: Id)
    requires i <= k < |ops| && LiveThrough(sha256, ops, i, k, id) && ops[k].DeleteOp? && ops[k].id == id
    requires ops[k].base == Some(After(sha256, EMPTY, ops[..i]).projects[id].revision)
    ensures var db := After(sha256, EMPTY, ops[..k]);
      DeleteReply(db, id, ops[k].base, ops[k].now).Deleted? <==> forall m: nat | i <= m < k :: !AcceptedAt(sha256, ops, m, id)
    ensures IsThere(After(sha256, EMPTY, ops[..k]).projects, id) ==>
      (IsDeleted(After(sha256, EMPTY, ops[..k + 1]).projects, id) <==> forall m: nat | i <= m < k :: !AcceptedAt(sha256, ops, m, id))
  {
    hide Step, After, Commits, AcceptedAt;
    RevisionCountsCommits(sha256, ops, i, k, id);
    CountIsZero(sha256, ops, i, k, id);
    DeletedExactlyBy(sha256, ops, k, id);
    AfterNext(sha256, ops, k);
    LifeEndsOnlyWhenDue(sha256, After(sha256, EMPTY, ops[..k]), ops[k], id);
  }

  lemma {:induction false} CountIsZero(sha256: Bytes -> Hash, ops: seq<Op>, i: nat, j: nat, id: Id)
    requires i <= j <= |ops|
    ensures CountAccepted(sha256, ops, i, j, id) == 0 <==> forall m: nat | i <= m < j :: !AcceptedAt(sha256, ops, m, id)
    decreases j
  {
    hide AcceptedAt;
    if i < j { CountIsZero(sha256, ops, i, j - 1, id); }
  }

  /** The view shows the row and the files of the project as they are. */
  ghost predicate Shows(view: TreeView, db: Db, id: Id) {
    && id in db.projects && view.project == db.projects[id]
    && (forall path :: path in view.files <==> (id, path) in db.files)
    && (forall path | path in view.files :: (id, path) in db.files && view.files[path] == db.files[(id, path)])
  }

  lemma ViewShows(db: Db, id: Id)
    requires id in db.projects
    ensures Shows(View(db, id), db, id)
  {
  }

  /** A delete on any other revision, or of no project, changes nothing; it is told the project as it is. */
  lemma RefusedDelete(db: Db, id: Id, base: Option<nat>, now: int)
    requires id in db.projects ==> base.Some? && base.value != db.projects[id].revision
    ensures Delete(db, id, base, now) == db
    ensures var reply := DeleteReply(db, id, base, now);
      if id in db.projects then reply.Conflict? && Shows(reply.server, db, id) else reply == NotFound
  {
    hide FilesOf, Shows;
    if id in db.projects { ViewShows(db, id); }
  }

  /** The date until which a deleted project can be restored counts from its first delete. */
  lemma RestorableUntil(db: Db, id: Id, base: Option<nat>, now: int)
    requires DeleteReply(db, id, base, now).Deleted?
    ensures var after := Delete(db, id, base, now).projects;
      && IsDeleted(after, id) && DeleteReply(db, id, base, now).restorableUntil == after[id].deletedAt.value + DELETED_KEPT
      && (IsDeleted(db.projects, id) ==> after == db.projects)
  {
  }

  // ----- commits -----

  lemma HistoryNext(sha256: Bytes -> Hash, ops: seq<Op>, k: nat)
    requires k < |ops|
    ensures HistoryAfter(sha256, EMPTY, map[], ops[..k + 1])
      == Record(After(sha256, EMPTY, ops[..k]), HistoryAfter(sha256, EMPTY, map[], ops[..k]), ops[k])
  {
    hide Record, After;
    assert ops[..k + 1][..k] == ops[..k];
  }

  lemma OthersKeepHistory(db: Db, history: History, op: Op, id: Id)
    requires id in history && !(Commits(db, op) && op.id == id) && !(op.ListOp? && id in db.projects && Due(db.projects[id], op.now))
    ensures id in Record(db, history, op) && Record(db, history, op)[id] == history[id]
  {
    hide Due;
    assert Commits(db, op) ==> op.CommitOp? && op.id != id;
    hide Commits;
  }

  /** In any history the newest tree is that of the last commit accepted. */
  lemma {:induction false} NewestIsLastAccepted(sha256: Bytes -> Hash, ops: seq<Op>, k: nat, j: nat, id: Id)
    requires k < j <= |ops| && AcceptedAt(sha256, ops, k, id) && LiveThrough(sha256, ops, k + 1, j, id)
    requires forall m: nat | k < m < j :: !AcceptedAt(sha256, ops, m, id)
    ensures var history := HistoryAfter(sha256, EMPTY, map[], ops[..j]);
      id in history && history[id] != [] && history[id][|history[id]| - 1] == ops[k].body.tree
    decreases j
  {
    hide Step, After, Commits, HistoryAfter;
    HistoryNext(sha256, ops, j - 1);
    if k < j - 1 {
      NewestIsLastAccepted(sha256, ops, k, j - 1, id);
      AfterNext(sha256, ops, j - 1);
      assert id in After(sha256, EMPTY, ops[..j]).projects;
      assert !AcceptedAt(sha256, ops, j - 1, id);
      LifeEndsOnlyWhenDue(sha256, After(sha256, EMPTY, ops[..j - 1]), ops[j - 1], id);
      OthersKeepHistory(After(sha256, EMPTY, ops[..j - 1]), HistoryAfter(sha256, EMPTY, map[], ops[..j - 1]), ops[j - 1], id);
    }
  }

  /** The current files of a project are the tree of the last commit accepted, whatever came after it. */
  lemma {:induction false} FilesAreLastAccepted(sha256: Bytes -> Hash, ops: seq<Op>, k: nat, j: nat, id: Id)
    requires k < j <= |ops| && AcceptedAt(sha256, ops, k, id) && LiveThrough(sha256, ops, k + 1, j, id)
    requires forall m: nat | k < m < j :: !AcceptedAt(sha256, ops, m, id)
    ensures var files := After(sha256, EMPTY, ops[..j]).files;
      && (forall path :: (id, path) in files <==> path in ops[k].body.tree)
      && (forall path | (id, path) in files :: files[(id, path)].sha == ops[k].body.tree[path])
  {
    hide Step, After, Commits, AcceptedAt, HistoryAfter, StampsAreStarts, NothingDangles, BlobsSound, SizesConserved, HistoryKept, RevisionsCount;
    NewestIsLastAccepted(sha256, ops, k, j, id);
    Reachable(sha256, ops[..j]);
  }

  lemma RevisionStays(sha256: Bytes -> Hash, db: Db, op: Op, id: Id, r: nat)
    requires (id, r) in db.revisions && id in db.projects && r <= db.projects[id].revision
    requires var after := Step(sha256, db, op).projects; id in after && after[id].revision < r + KEEP_REVISIONS
    ensures var after := Step(sha256, db, op).revisions; (id, r) in after && after[(id, r)] == db.revisions[(id, r)]
  {
    hide CommittedFiles, CommitReply, Used, WantedSizes, UploadReply, Due;
    if Commits(db, op) { AcceptedBase(db, op); }
  }

  lemma NewRevision(sha256: Bytes -> Hash, db: Db, op: Op)
    requires Commits(db, op)
    ensures op.CommitOp? && (op.id in db.projects ==> Accepts(db, op.id, op.base))
    ensures var after, r := Step(sha256, db, op), NextRevision(db, op.id);
      && op.id in after.projects && after.projects[op.id].revision == r
      && (op.id, r) in after.revisions && after.revisions[(op.id, r)] == RevisionRow(op.body.device, op.body.tree)
  {
    AcceptedBase(db, op);
    hide CommittedFiles, CommitReply, Used, WantedSizes, UploadReply, Due;
  }

  /** Each of the last 20 commits is kept as it was sent, by the number it was given. */
  lemma {:induction false} RevisionIsItsCommit(sha256: Bytes -> Hash, ops: seq<Op>, k: nat, j: nat, id: Id)
    requires k < j <= |ops| && AcceptedAt(sha256, ops, k, id) && LiveThrough(sha256, ops, k + 1, j, id)
    requires After(sha256, EMPTY, ops[..j]).projects[id].revision
      < After(sha256, EMPTY, ops[..k + 1]).projects[id].revision + KEEP_REVISIONS
    ensures var r, revisions := After(sha256, EMPTY, ops[..k + 1]).projects[id].revision, After(sha256, EMPTY, ops[..j]).revisions;
      (id, r) in revisions && revisions[(id, r)] == RevisionRow(ops[k].body.device, ops[k].body.tree)
    decreases j
  {
    hide Step, After, Commits;
    AfterNext(sha256, ops, k);
    if k + 1 == j {
      NewRevision(sha256, After(sha256, EMPTY, ops[..k]), ops[k]);
    } else {
      AfterNext(sha256, ops, j - 1);
      RevisionCountsCommits(sha256, ops, k + 1, j - 1, id);
      RevisionCountsCommits(sha256, ops, j - 1, j, id);
      RevisionIsItsCommit(sha256, ops, k, j - 1, id);
      RevisionStays(sha256, After(sha256, EMPTY, ops[..j - 1]), ops[j - 1], id, After(sha256, EMPTY, ops[..k + 1]).projects[id].revision);
    }
  }

  /** The lengths of a tree's contents, path by path. */
  ghost function Lengths(blobs: map<Hash, BlobRow>, tree: Tree): map<Path, nat> {
    map path | path in tree && tree[path] in blobs :: |blobs[tree[path]].content|
  }

  lemma LengthsAreSizes(sha256: Bytes -> Hash, db: Db, tree: Tree)
    requires BlobsSound(sha256, db) && tree.Values <= db.blobs.Keys
    ensures WantedSizes(db, tree) == Lengths(db.blobs, tree)
  {
    forall path | path in tree ensures tree[path] in db.blobs { assert tree[path] in tree.Values; }
  }

  /** There is room for the tree: in the project, and in the account beside its other projects. */
  ghost predicate Room(db: Db, id: Id, tree: Tree) {
    var size := Total(Lengths(db.blobs, tree));
    size <= MAX_PROJECT && Total(ProjectSizes(db.projects - {id})) + size <= QUOTA
  }

  /** What a commit answers, given that its base is right. */
  lemma RightBase(sha256: Bytes -> Hash, db: Db, id: Id, base: Option<nat>, tree: Tree)
    requires BlobsSound(sha256, db) && (if id in db.projects then base == Some(db.projects[id].revision) else base in {None, Some(0)})
    ensures var reply := CommitReply(db, id, base, tree);
      && (reply.Committed? <==> (forall path | path in tree :: tree[path] in db.blobs) && Room(db, id, tree))
      && (reply.ProjectTooLarge? <==>
            (forall path | path in tree :: tree[path] in db.blobs) && Total(Lengths(db.blobs, tree)) > MAX_PROJECT)
      && (reply.Committed? || reply.Missing? || reply.ProjectTooLarge? || reply.SpaceFull?)
      && (reply.Missing? <==> exists path :: path in tree && tree[path] !in db.blobs)
      && (reply.Missing? ==> forall h :: h in reply.hashes <==> h !in db.blobs && exists path :: path in tree && tree[path] == h)
      && (reply.Committed? ==> reply.revision == (if id in db.projects then db.projects[id].revision else 0) + 1)
  {
    hide Total, ProjectSizes, Lengths, WantedSizes;
    forall path | path in tree ensures tree[path] in tree.Values { }
    if tree.Values <= db.blobs.Keys {
      LengthsAreSizes(sha256, db, tree);
    } else {
      var h :| h in tree.Values && h !in db.blobs;
      var path :| path in tree && tree[path] == h;
    }
  }

  /**
   A commit on the revision a client read is accepted if and only if nobody has committed since, every file is
   stored and there is room; if somebody has, it changes nothing and is told the project as it is.
   */
  lemma {:induction false} AcceptedExactly(sha256: Bytes -> Hash, ops: seq<Op>, i: nat, j: nat, id: Id)
    requires i <= j < |ops| && LiveThrough(sha256, ops, i, j, id) && ops[j].CommitOp? && ops[j].id == id
    requires ops[j].base == Some(After(sha256, EMPTY, ops[..i]).projects[id].revision)
    ensures var db, tree := After(sha256, EMPTY, ops[..j]), ops[j].body.tree;
      AcceptedAt(sha256, ops, j, id) <==>
        && (forall m: nat | i <= m < j :: !AcceptedAt(sha256, ops, m, id))
        && (forall path | path in tree :: tree[path] in db.blobs) && Room(db, id, tree)
    ensures (exists m: nat :: i <= m < j && AcceptedAt(sha256, ops, m, id)) ==>
      var db := After(sha256, EMPTY, ops[..j]); var reply := CommitReply(db, id, ops[j].base, ops[j].body.tree);
      && reply.Conflict? && Shows(reply.server, db, id) && After(sha256, EMPTY, ops[..j + 1]) == db
      && reply.server.project.revision == ops[j].base.value + CountAccepted(sha256, ops, i, j, id)
  {
    hide After, AcceptedAt, HistoryAfter, Inv, Room, Shows, CountAccepted, Accepts;
    var db := After(sha256, EMPTY, ops[..j]);
    AcceptedIs(sha256, ops, j, id);
    RevisionCountsCommits(sha256, ops, i, j, id);
    CountIsZero(sha256, ops, i, j, id);
    Reachable(sha256, ops[..j]);
    Sound(sha256, db, HistoryAfter(sha256, EMPTY, map[], ops[..j]));
    AfterNext(sha256, ops, j);
    if CountAccepted(sha256, ops, i, j, id) == 0 {
      RightBase(sha256, db, id, ops[j].base, ops[j].body.tree);
    } else {
      RefusedCommit(db, id, ops[j].base, ops[j].body, ops[j].now);
    }
  }

  lemma Sound(sha256: Bytes -> Hash, db: Db, history: History)
    requires Inv(sha256, db, history)
    ensures BlobsSound(sha256, db)
  {
    hide BlobsSound;
  }

  lemma AcceptedIs(sha256: Bytes -> Hash, ops: seq<Op>, j: nat, id: Id)
    requires j < |ops| && ops[j].CommitOp? && ops[j].id == id
    ensures AcceptedAt(sha256, ops, j, id) <==>
      CommitReply(After(sha256, EMPTY, ops[..j]), id, ops[j].base, ops[j].body.tree).Committed?
  {
    hide After, CommitReply;
  }

  /** A commit from any other base changes nothing, and is told the project as it is, or that there is none. */
  lemma RefusedCommit(db: Db, id: Id, base: Option<nat>, body: CommitBody, now: int)
    requires if id in db.projects then base != Some(db.projects[id].revision) else base !in {None, Some(0)}
    ensures Commit(db, id, base, body, now) == db
    ensures var reply := CommitReply(db, id, base, body.tree);
      if id in db.projects then reply.Conflict? && Shows(reply.server, db, id) else reply == NotFound
  {
    hide Shows, View;
    if id in db.projects { ViewShows(db, id); }
  }

  /** What no commit touches of a row, and what an accepted one writes: a name or board left out stays. */
  lemma RowMoves(sha256: Bytes -> Hash, db: Db, op: Op, id: Id)
    requires id in Step(sha256, db, op).projects
    ensures var row := Step(sha256, db, op).projects[id];
      if Commits(db, op) && op.id == id then
        && row.name == (if op.body.name != "" then op.body.name else if id in db.projects then db.projects[id].name else "")
        && row.board == (if op.body.board != "" then op.body.board else if id in db.projects then db.projects[id].board else "")
        && row.deletedAt.None? && row.updatedAt == op.now
      else
        && id in db.projects && row.name == db.projects[id].name && row.board == db.projects[id].board
        && row.size == db.projects[id].size && row.revision == db.projects[id].revision
  {
    hide CommittedFiles, CommittedRevisions, CommitReply, Used, WantedSizes, UploadReply, Due;
    if Commits(db, op) { AcceptedBase(db, op); }
  }

  // ----- uploads -----

  ghost predicate Good(sha256: Bytes -> Hash, item: BlobIn) {
    item.content.Some? && |item.content.value| <= MAX_FILE && sha256(item.content.value) == item.sha
  }

  /** The last item under this hash. */
  ghost predicate LastOf(items: seq<BlobIn>, i: nat, h: Hash) {
    && i < |items| && items[i].sha == h
    && forall j | i < j < |items| :: items[j].sha != h
  }

  ghost predicate Sent(items: seq<BlobIn>, h: Hash) { exists i: nat :: LastOf(items, i, h) }

  /** What the batch brings: under each hash the content that came with it last. */
  ghost predicate Brings(items: seq<BlobIn>, contents: map<Hash, Bytes>) {
    && (forall h :: h in contents <==> Sent(items, h))
    && (forall i: nat, h | LastOf(items, i, h) :: h in contents && items[i].content == Some(contents[h]))
  }

  lemma {:induction false} DecodeIs(sha256: Bytes -> Hash, items: seq<BlobIn>)
    ensures Decode(sha256, items).Ok? <==> forall i | 0 <= i < |items| :: Good(sha256, items[i])
    ensures Decode(sha256, items).Ok? ==> Brings(items, Decode(sha256, items).value)
    ensures Decode(sha256, items).Err? ==> exists i: nat :: FirstBad(sha256, items, i, Decode(sha256, items).error)
  {
    hide Brings, FirstBad, Good;
    if items == [] {
      NothingBrought();
    } else {
      var front, last := items[..|items| - 1], items[|items| - 1];
      assert items == front + [last];
      DecodeIs(sha256, front);
      LastIsGood(sha256, last);
      if Decode(sha256, front).Err? {
        var i: nat :| FirstBad(sha256, front, i, Decode(sha256, front).error);
        FirstBadStays(sha256, front, last, i, Decode(sha256, front).error);
      } else if Good(sha256, last) {
        OneMoreBrought(front, last, Decode(sha256, front).value, last.content.value);
      } else {
        NewBad(sha256, front, last);
      }
    }
  }

  lemma NothingBrought()
    ensures Brings([], map[])
  {
  }

  lemma LastIsGood(sha256: Bytes -> Hash, item: BlobIn)
    ensures CheckUpload(sha256, item).Ok? <==> Good(sha256, item)
    ensures Good(sha256, item) ==> item.content.Some? && CheckUpload(sha256, item) == Ok(item.content.value)
  {
  }

  /** Item i is the first that is not good, and this is what is wrong with it. */
  ghost predicate FirstBad(sha256: Bytes -> Hash, items: seq<BlobIn>, i: nat, error: UploadError) {
    && i < |items| && (forall j | 0 <= j < i :: Good(sha256, items[j]))
    && match error
       case NotBase64(sha) => items[i].content.None? && items[i].sha == sha
       case FileTooLarge => items[i].content.Some? && |items[i].content.value| > MAX_FILE
       case WrongHash(sha) => items[i].content.Some? && |items[i].content.value| <= MAX_FILE && items[i].sha == sha && sha256(items[i].content.value) != sha
  }

  lemma FirstBadStays(sha256: Bytes -> Hash, front: seq<BlobIn>, last: BlobIn, i: nat, error: UploadError)
    requires FirstBad(sha256, front, i, error)
    ensures FirstBad(sha256, front + [last], i, error) && !Good(sha256, (front + [last])[i])
  {
  }

  lemma NewBad(sha256: Bytes -> Hash, front: seq<BlobIn>, last: BlobIn)
    requires (forall i | 0 <= i < |front| :: Good(sha256, front[i])) && !Good(sha256, last)
    ensures CheckUpload(sha256, last).Err? && FirstBad(sha256, front + [last], |front|, CheckUpload(sha256, last).error)
  {
  }

  lemma OneMoreBrought(front: seq<BlobIn>, last: BlobIn, contents: map<Hash, Bytes>, content: Bytes)
    requires Brings(front, contents) && last.content == Some(content)
    ensures Brings(front + [last], contents[last.sha := content])
  {
    var items := front + [last];
    assert LastOf(items, |front|, last.sha);
    assert forall j | 0 <= j < |front| :: items[j] == front[j];
    forall h, i: nat | h != last.sha ensures LastOf(items, i, h) <==> LastOf(front, i, h) {
      if LastOf(front, i, h) {
        assert forall j | i < j < |front| :: front[j].sha != h;
      }
      if LastOf(items, i, h) {
        assert i != |front|;
        assert forall j | i < j < |front| :: items[j].sha != h;
      }
    }
    forall h | h != last.sha ensures Sent(items, h) <==> Sent(front, h) {
      if Sent(front, h) { var i: nat :| LastOf(front, i, h); assert LastOf(items, i, h); }
      if Sent(items, h) { var i: nat :| LastOf(items, i, h); assert LastOf(front, i, h); }
    }
  }

  /**
   An upload is taken if and only if it has 50 files at most, each with its own content of at most 2 MB, and the new
   ones fit; it then answers exactly which hashes are new and which were there, and stores what came under the new ones.
   */
  lemma {:induction false} UploadAnswers(sha256: Bytes -> Hash, ops: seq<Op>, items: seq<BlobIn>)
    ensures var db := After(sha256, EMPTY, ops);
      var reply, after := UploadReply(sha256, db, items), Step(sha256, db, UploadOp(items));
      && (reply.Uploaded? ==>
            && |items| <= MAX_UPLOADS && (forall i | 0 <= i < |items| :: Good(sha256, items[i]))
            && (forall h :: h in reply.stored <==> Sent(items, h) && h !in db.blobs)
            && (forall h :: h in reply.existing <==> Sent(items, h) && h in db.blobs)
            && after == db.(blobs := after.blobs)
            && (forall h :: h in after.blobs <==> h in db.blobs || h in reply.stored)
            && (forall h | h in db.blobs :: after.blobs[h] == db.blobs[h])
            && (forall i: nat, h | LastOf(items, i, h) && h in reply.stored :: h in after.blobs && items[i].content == Some(after.blobs[h].content)))
      && (!reply.Uploaded? ==> after == db)
      && (reply.TooManyUploads? <==> |items| > MAX_UPLOADS)
      && (reply.BadUpload? <==> |items| <= MAX_UPLOADS && exists i :: 0 <= i < |items| && !Good(sha256, items[i]))
      && (reply.BadUpload? ==> exists i: nat :: FirstBad(sha256, items, i, reply.error))
  {
    hide After, Total, BlobSizes, Good, FirstBad, LastOf, Sent;
    DecodeIs(sha256, items);
    hide Decode;
  }

  /** Good items are refused only when there is no room for the new ones. */
  lemma {:induction false} UploadFits(sha256: Bytes -> Hash, ops: seq<Op>, items: seq<BlobIn>, added: map<Hash, nat>)
    requires |items| <= MAX_UPLOADS && forall i | 0 <= i < |items| :: Good(sha256, items[i])
    requires forall h :: h in added <==> Sent(items, h) && h !in After(sha256, EMPTY, ops).blobs
    requires forall i: nat, h | LastOf(items, i, h) && h in added :: items[i].content.Some? && added[h] == |items[i].content.value|
    ensures var blobs := After(sha256, EMPTY, ops).blobs;
      UploadReply(sha256, After(sha256, EMPTY, ops), items).Uploaded? <==> Total(BlobSizes(blobs)) + Total(added) <= QUOTA + MAX_PROJECT
  {
    hide After, Total, Good, FirstBad, LastOf;
    DecodeIs(sha256, items);
    hide Decode;
    var db, contents := After(sha256, EMPTY, ops), Decode(sha256, items).value;
    forall h | h in added ensures h in contents && added[h] == |contents[h]| {
      var i: nat :| LastOf(items, i, h);
    }
    assert BlobSizes(NewBlobs(db, contents)) == added;
  }
}
