/**
 The project sync store of one account: four tables, and what each request does to them.

 A request is one atomic transaction. Times are parameters, in seconds. SHA-256 is an
 arbitrary function; nothing is assumed about collisions.
 */
module ProjectSync {
  import opened Prelude
  import opened Sums

  newtype byte = x: int | 0 <= x < 256
  type Bytes = seq<byte>
  type Hash = string
  type Id = string
  type Path = string
  type Tree = map<Path, Hash>

  const MAX_FILE: nat := 2 * 1024 * 1024
  const MAX_PROJECT: nat := 20 * 1024 * 1024
  const QUOTA: nat := 200 * 1024 * 1024
  const MAX_UPLOADS: nat := 50
  const KEEP_REVISIONS: nat := 20
  const DELETED_KEPT: nat := 30 * 24 * 60 * 60

  datatype ProjectRow = ProjectRow(
    name: string, board: string, revision: nat, size: nat, deletedAt: Option<int>, updatedAt: int)
  datatype FileRow = FileRow(sha: Hash, size: nat, revision: nat)
  datatype BlobRow = BlobRow(content: Bytes, size: nat)
  datatype RevisionRow = RevisionRow(device: string, tree: Tree)

  datatype Db = Db(
    projects: map<Id, ProjectRow>,
    files: map<(Id, Path), FileRow>,
    blobs: map<Hash, BlobRow>,
    revisions: map<(Id, nat), RevisionRow>)

  const EMPTY := Db(map[], map[], map[], map[])

  /** What a read or a conflict shows of a project. */
  datatype TreeView = TreeView(project: ProjectRow, files: map<Path, FileRow>)

  datatype Reply =
    | Committed(revision: nat)
    | Conflict(server: TreeView)
    | NotFound
    | PreconditionFailed
    | RepeatedPath
    | Missing(hashes: set<Hash>)
    | ProjectTooLarge
    | SpaceFull
    | TooManyUploads
    | BadUpload(error: UploadError)
    | Uploaded(stored: set<Hash>, existing: set<Hash>)
    | Deleted(restorableUntil: int)
    | Restored(server: TreeView)
    | Listed(projects: map<Id, ProjectRow>)

  /** One uploaded file; None is text that is not base64. */
  datatype BlobIn = BlobIn(sha: Hash, content: Option<Bytes>)
  datatype UploadError = NotBase64(sha: Hash) | FileTooLarge | WrongHash(sha: Hash)

  datatype CommitBody = CommitBody(name: string, board: string, device: string, tree: Tree)

  // ----- one project's rows -----

  function PathsOf(files: map<(Id, Path), FileRow>, id: Id): (paths: set<Path>)
    ensures forall path :: path in paths <==> (id, path) in files
  {
    var mine := set k | k in files && k.0 == id :: k.1;
    assert forall path | (id, path) in files :: (id, path).1 in mine;
    mine
  }

  function FilesOf(files: map<(Id, Path), FileRow>, id: Id): map<Path, FileRow> {
    map path | path in PathsOf(files, id) :: files[(id, path)]
  }

  function View(db: Db, id: Id): TreeView
    requires id in db.projects
  {
    TreeView(db.projects[id], FilesOf(db.files, id))
  }

  function FileSizes(files: map<Path, FileRow>): map<Path, nat> {
    map path | path in files :: files[path].size
  }

  function ProjectSizes(projects: map<Id, ProjectRow>): map<Id, nat> {
    map id | id in projects :: projects[id].size
  }

  function BlobSizes(blobs: map<Hash, BlobRow>): map<Hash, nat> {
    map h | h in blobs :: blobs[h].size
  }

  // ----- garbage collection -----

  predicate UsedByFile(files: map<(Id, Path), FileRow>, h: Hash) {
    exists k :: k in files && files[k].sha == h
  }

  predicate UsedByRevision(revisions: map<(Id, nat), RevisionRow>, h: Hash) {
    exists k :: k in revisions && h in revisions[k].tree.Values
  }

  predicate Used(db: Db, h: Hash) { UsedByFile(db.files, h) || UsedByRevision(db.revisions, h) }

  function Collect(db: Db): Db {
    db.(blobs := map h | h in db.blobs && Used(db, h) :: db.blobs[h])
  }

  // ----- commit -----

  predicate Accepts(db: Db, id: Id, base: Option<nat>) {
    if id in db.projects then base == Some(db.projects[id].revision) else base in {None, Some(0)}
  }

  function NextRevision(db: Db, id: Id): nat {
    if id in db.projects then db.projects[id].revision + 1 else 1
  }

  function WantedSizes(db: Db, tree: Tree): map<Path, nat>
    requires tree.Values <= db.blobs.Keys
  {
    map path | path in tree :: assert tree[path] in tree.Values; db.blobs[tree[path]].size
  }

  ghost function CommitReply(db: Db, id: Id, base: Option<nat>, tree: Tree): Reply {
    if !Accepts(db, id, base) then
      if id in db.projects then Conflict(View(db, id)) else NotFound
    else if !(tree.Values <= db.blobs.Keys) then Missing(tree.Values - db.blobs.Keys)
    else
      var size := Total(WantedSizes(db, tree));
      if size > MAX_PROJECT then ProjectTooLarge
      else if Total(ProjectSizes(db.projects - {id})) + size > QUOTA then SpaceFull
      else Committed(NextRevision(db, id))
  }

  /** A file keeps its row while its content is unchanged; otherwise it is stamped with the new revision. */
  function CommittedFile(db: Db, id: Id, tree: Tree, path: Path): FileRow
    requires tree.Values <= db.blobs.Keys && path in tree
  {
    if (id, path) in db.files && db.files[(id, path)].sha == tree[path] then db.files[(id, path)]
    else assert tree[path] in tree.Values; FileRow(tree[path], db.blobs[tree[path]].size, NextRevision(db, id))
  }

  function CommittedFiles(db: Db, id: Id, tree: Tree): map<(Id, Path), FileRow>
    requires tree.Values <= db.blobs.Keys
  {
    map k | k in db.files.Keys + (set path | path in tree :: (id, path)) && (k.0 == id ==> k.1 in tree)
      :: if k.0 == id then CommittedFile(db, id, tree, k.1) else db.files[k]
  }

  /** The newest revision added, and those KEEP_REVISIONS behind it dropped. */
  function CommittedRevisions(db: Db, id: Id, device: string, tree: Tree): map<(Id, nat), RevisionRow> {
    var newest := NextRevision(db, id);
    map k | k in db.revisions.Keys + {(id, newest)} && !(k.0 == id && k.1 <= newest - KEEP_REVISIONS)
      :: if k == (id, newest) then RevisionRow(device, tree) else db.revisions[k]
  }

  ghost function CommittedProject(db: Db, id: Id, body: CommitBody, now: int): ProjectRow
    requires body.tree.Values <= db.blobs.Keys
  {
    var prior := if id in db.projects then db.projects[id] else ProjectRow("", "", 0, 0, None, now);
    ProjectRow(
      if body.name != "" then body.name else prior.name,
      if body.board != "" then body.board else prior.board,
      NextRevision(db, id), Total(WantedSizes(db, body.tree)), None, now)
  }

  ghost function Commit(db: Db, id: Id, base: Option<nat>, body: CommitBody, now: int): Db {
    if !CommitReply(db, id, base, body.tree).Committed? then db else
      Collect(Db(
        db.projects[id := CommittedProject(db, id, body, now)],
        CommittedFiles(db, id, body.tree),
        db.blobs,
        CommittedRevisions(db, id, body.device, body.tree)))
  }

  // ----- upload -----

  function CheckUpload(sha256: Bytes -> Hash, item: BlobIn): Result<Bytes, UploadError> {
    if item.content.None? then Err(NotBase64(item.sha))
    else if |item.content.value| > MAX_FILE then Err(FileTooLarge)
    else if sha256(item.content.value) != item.sha then Err(WrongHash(item.sha))
    else Ok(item.content.value)
  }

  /** The contents of a batch by hash, or the error of the first item that has one. */
  function Decode(sha256: Bytes -> Hash, items: seq<BlobIn>): Result<map<Hash, Bytes>, UploadError> {
    if items == [] then Ok(map[]) else
      var front := Decode(sha256, items[..|items| - 1]);
      var last := items[|items| - 1];
      if front.Err? then front else
        var content := CheckUpload(sha256, last);
        if content.Err? then Err(content.error) else Ok(front.value[last.sha := content.value])
  }

  function NewBlobs(db: Db, decoded: map<Hash, Bytes>): map<Hash, BlobRow> {
    map h | h in decoded && h !in db.blobs :: BlobRow(decoded[h], |decoded[h]|)
  }

  ghost function UploadReply(sha256: Bytes -> Hash, db: Db, items: seq<BlobIn>): Reply {
    if |items| > MAX_UPLOADS then TooManyUploads else
      var decoded := Decode(sha256, items);
      if decoded.Err? then BadUpload(decoded.error) else
        var added := NewBlobs(db, decoded.value);
        if Total(BlobSizes(db.blobs)) + Total(BlobSizes(added)) > QUOTA + MAX_PROJECT then SpaceFull
        else Uploaded(added.Keys, decoded.value.Keys * db.blobs.Keys)
  }

  ghost function Upload(sha256: Bytes -> Hash, db: Db, items: seq<BlobIn>): Db {
    if !UploadReply(sha256, db, items).Uploaded? then db
    else db.(blobs := db.blobs + NewBlobs(db, Decode(sha256, items).value))
  }

  // ----- delete, restore and purge -----

  function DeleteReply(db: Db, id: Id, base: Option<nat>, now: int): Reply {
    if id !in db.projects then NotFound
    else if base.Some? && base.value != db.projects[id].revision then Conflict(View(db, id))
    else Deleted((if db.projects[id].deletedAt.Some? then db.projects[id].deletedAt.value else now) + DELETED_KEPT)
  }

  /** Deleting again does not restart the 30 days. An update of the row also moves its updatedAt. */
  function Delete(db: Db, id: Id, base: Option<nat>, now: int): Db {
    if DeleteReply(db, id, base, now).Deleted? && db.projects[id].deletedAt.None? then
      db.(projects := db.projects[id := db.projects[id].(deletedAt := Some(now), updatedAt := now)])
    else db
  }

  function Restore(db: Db, id: Id, now: int): Db {
    if id in db.projects && db.projects[id].deletedAt.Some? then
      db.(projects := db.projects[id := db.projects[id].(deletedAt := None, updatedAt := now)])
    else db
  }

  predicate Due(row: ProjectRow, now: int) { row.deletedAt.Some? && row.deletedAt.value < now - DELETED_KEPT }

  predicate Survives(db: Db, now: int, id: Id) { !(id in db.projects && Due(db.projects[id], now)) }

  /** The rows of the projects that are not due. */
  function Remaining(db: Db, now: int): Db {
    Db(map id | id in db.projects && Survives(db, now, id) :: db.projects[id],
      map k | k in db.files && Survives(db, now, k.0) :: db.files[k],
      db.blobs,
      map k | k in db.revisions && Survives(db, now, k.0) :: db.revisions[k])
  }

  function Purge(db: Db, now: int): Db { Collect(Remaining(db, now)) }

  // ----- runs -----

  datatype Op =
    | UploadOp(items: seq<BlobIn>)
    | CommitOp(id: Id, base: Option<nat>, body: CommitBody, now: int)
    | DeleteOp(id: Id, base: Option<nat>, now: int)
    | RestoreOp(id: Id, now: int)
    | ListOp(now: int)

  ghost function Step(sha256: Bytes -> Hash, db: Db, op: Op): Db {
    match op
    case UploadOp(items) => Upload(sha256, db, items)
    case CommitOp(id, base, body, now) => Commit(db, id, base, body, now)
    case DeleteOp(id, base, now) => Delete(db, id, base, now)
    case RestoreOp(id, now) => Restore(db, id, now)
    case ListOp(now) => Purge(db, now)
  }

  ghost predicate Commits(db: Db, op: Op) {
    op.CommitOp? && CommitReply(db, op.id, op.base, op.body.tree).Committed?
  }

  /** Every tree committed to each project since its row was created, however many are still kept. */
  type History = map<Id, seq<Tree>>

  function Extended(history: History, id: Id, tree: Tree): History {
    history[id := (if id in history then history[id] else []) + [tree]]
  }

  ghost function Record(db: Db, history: History, op: Op): History {
    if Commits(db, op) then Extended(history, op.id, op.body.tree)
    else if op.ListOp? then map id | id in history && Survives(db, op.now, id) :: history[id]
    else history
  }

  /** The store, and its history, after a run of requests. */
  ghost function After(sha256: Bytes -> Hash, db: Db, ops: seq<Op>): Db {
    if ops == [] then db else Step(sha256, After(sha256, db, ops[..|ops| - 1]), ops[|ops| - 1])
  }

  ghost function HistoryAfter(sha256: Bytes -> Hash, db: Db, history: History, ops: seq<Op>): History {
    if ops == [] then history else
      var before := ops[..|ops| - 1];
      Record(After(sha256, db, before), HistoryAfter(sha256, db, history, before), ops[|ops| - 1])
  }
}
