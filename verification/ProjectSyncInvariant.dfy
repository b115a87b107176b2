/** What holds of the project sync tables in every reachable state. */
module ProjectSyncInvariant {
  import opened Prelude
  import opened Sums
  import opened ProjectSync

  type Projects = map<Id, ProjectRow>
  type Files = map<(Id, Path), FileRow>
  type Revisions = map<(Id, nat), RevisionRow>

  function Newest(trees: seq<Tree>): Tree
    requires trees != []
  {
    trees[|trees| - 1]
  }

  /** A revision number still kept of a project at revision r. */
  predicate Kept(r: nat, n: nat) { 1 <= n <= r && r - KEEP_REVISIONS < n }

  /** Projects are at the length of their history. */
  ghost predicate RevisionsCount(projects: Projects, history: History) {
    && history.Keys == projects.Keys
    && (forall id | id in history :: history[id] != [] && projects[id].revision == |history[id]|)
  }

  /** The kept revisions of a project are its last KEEP_REVISIONS trees. */
  ghost predicate HistoryKept(revisions: Revisions, history: History) {
    && (forall k :: k in revisions <==> k.0 in history && Kept(|history[k.0]|, k.1))
    && (forall k | k in revisions :: revisions[k].tree == history[k.0][k.1 - 1])
  }

  /** The rows of a project's files are exactly its newest tree. */
  ghost predicate TreeIsNewest(files: Files, history: History) {
    && (forall id | id in history :: history[id] != [])
    && (forall k :: k in files <==> k.0 in history && k.1 in Newest(history[k.0]))
    && (forall k | k in files :: files[k].sha == Newest(history[k.0])[k.1])
  }

  predicate Holds(trees: seq<Tree>, n: nat, path: Path, sha: Hash)
    requires 1 <= n <= |trees|
  {
    path in trees[n - 1] && trees[n - 1][path] == sha
  }

  /** start is where the newest unbroken run of sha at path begins, in the trees of revisions 1, 2, ... */
  ghost predicate StartsRun(trees: seq<Tree>, path: Path, sha: Hash, start: nat) {
    && 1 <= start <= |trees|
    && (forall n | start <= n <= |trees| :: Holds(trees, n, path, sha))
    && (start > 1 ==> !Holds(trees, start - 1, path, sha))
  }

  ghost predicate StampsAreStarts(files: Files, history: History) {
    forall k | k in files ::
      k.0 in history && StartsRun(history[k.0], k.1, files[k].sha, files[k].revision)
  }

  /** No row names a blob that is not stored. */
  ghost predicate NothingDangles(db: Db) {
    && (forall k | k in db.files :: db.files[k].sha in db.blobs)
    && (forall k | k in db.revisions :: db.revisions[k].tree.Values <= db.blobs.Keys)
  }

  ghost predicate BlobsSound(sha256: Bytes -> Hash, db: Db) {
    && (forall h | h in db.blobs :: sha256(db.blobs[h].content) == h)
    && (forall h | h in db.blobs :: db.blobs[h].size == |db.blobs[h].content| <= MAX_FILE)
    && (forall k | k in db.files && db.files[k].sha in db.blobs :: db.files[k].size == db.blobs[db.files[k].sha].size)
  }

  ghost predicate SizeOfFiles(files: Files, id: Id, row: ProjectRow) {
    row.size == Total(FileSizes(FilesOf(files, id))) <= MAX_PROJECT
  }

  ghost predicate ProjectsConserved(projects: Projects, files: Files) {
    && (forall id | id in projects :: SizeOfFiles(files, id, projects[id]))
    && Total(ProjectSizes(projects)) <= QUOTA
  }

  ghost predicate SizesConserved(db: Db) {
    && ProjectsConserved(db.projects, db.files)
    && Total(BlobSizes(db.blobs)) <= QUOTA + MAX_PROJECT
  }

  ghost predicate Inv(sha256: Bytes -> Hash, db: Db, history: History) {
    && RevisionsCount(db.projects, history)
    && HistoryKept(db.revisions, history)
    && TreeIsNewest(db.files, history)
    && StampsAreStarts(db.files, history)
    && NothingDangles(db)
    && BlobsSound(sha256, db)
    && SizesConserved(db)
  }

  // ----- garbage collection -----

  lemma CollectKeeps(sha256: Bytes -> Hash, db: Db)
    requires NothingDangles(db) && BlobsSound(sha256, db) && SizesConserved(db)
    ensures NothingDangles(Collect(db)) && BlobsSound(sha256, Collect(db)) && SizesConserved(Collect(db))
    ensures Collect(db) == db.(blobs := Collect(db).blobs)
    ensures forall h :: h in Collect(db).blobs <==> Used(db, h)
  {
    hide Total, SizeOfFiles, BlobSizes, ProjectsConserved;
    var after := Collect(db);
    forall h | Used(db, h) ensures h in db.blobs { UsedIsStored(db, h); }
    forall k | k in after.files ensures after.files[k].sha in after.blobs {
      assert UsedByFile(db.files, db.files[k].sha);
    }
    forall k, h | k in after.revisions && h in after.revisions[k].tree.Values ensures h in after.blobs {
      assert UsedByRevision(db.revisions, h);
    }
    FewerBlobs(after.blobs, db.blobs);
  }

  lemma UsedIsStored(db: Db, h: Hash)
    requires NothingDangles(db) && Used(db, h)
    ensures h in db.blobs
  {
    if !UsedByFile(db.files, h) {
      var k :| k in db.revisions && h in db.revisions[k].tree.Values;
      assert db.revisions[k].tree.Values <= db.blobs.Keys;
    }
  }

  lemma FewerBlobs(kept: map<Hash, BlobRow>, blobs: map<Hash, BlobRow>)
    requires forall h | h in kept :: h in blobs && kept[h] == blobs[h]
    ensures Total(BlobSizes(kept)) <= Total(BlobSizes(blobs))
  {
    hide Total;
    TotalSubset(BlobSizes(kept), BlobSizes(blobs));
  }

  // ----- commit -----

  lemma CommitKeepsHistory(db: Db, history: History, id: Id, device: string, tree: Tree)
    requires RevisionsCount(db.projects, history) && HistoryKept(db.revisions, history)
    ensures HistoryKept(CommittedRevisions(db, id, device, tree), Extended(history, id, tree))
  {
    var log := Extended(history, id, tree);
    var revisions := CommittedRevisions(db, id, device, tree);
    assert |log[id]| == NextRevision(db, id) && log[id][|log[id]| - 1] == tree;
    forall k ensures k in revisions <==> k.0 in log && Kept(|log[k.0]|, k.1) {
      if k.0 != id { assert k in revisions <==> k in db.revisions; }
    }
  }

  lemma CommitKeepsTree(db: Db, history: History, id: Id, tree: Tree)
    requires TreeIsNewest(db.files, history) && tree.Values <= db.blobs.Keys
    ensures TreeIsNewest(CommittedFiles(db, id, tree), Extended(history, id, tree))
  {
    var files, log := CommittedFiles(db, id, tree), Extended(history, id, tree);
    assert Newest(log[id]) == tree;
    forall k ensures k in files <==> k.0 in log && k.1 in Newest(log[k.0]) {
      if k.0 == id {
        assert k == (id, k.1);
      } else {
        assert k in files <==> k in db.files;
      }
    }
  }

  lemma CommitKeepsStamps(db: Db, history: History, id: Id, tree: Tree)
    requires RevisionsCount(db.projects, history) && tree.Values <= db.blobs.Keys
    requires TreeIsNewest(db.files, history) && StampsAreStarts(db.files, history)
    ensures StampsAreStarts(CommittedFiles(db, id, tree), Extended(history, id, tree))
  {
    var files, log := CommittedFiles(db, id, tree), Extended(history, id, tree);
    forall k | k in files
      ensures k.0 in log && StartsRun(log[k.0], k.1, files[k].sha, files[k].revision)
    {
      if k.0 == id {
        CommittedFileStartsRun(db, history, id, tree, k.1);
      } else {
        assert k in db.files;
      }
    }
  }

  /** The stamp of a committed file is right: kept while its content is unchanged, else the new revision. */
  lemma CommittedFileStartsRun(db: Db, history: History, id: Id, tree: Tree, path: Path)
    requires RevisionsCount(db.projects, history) && tree.Values <= db.blobs.Keys && path in tree
    requires TreeIsNewest(db.files, history) && StampsAreStarts(db.files, history)
    ensures var row := CommittedFile(db, id, tree, path);
      StartsRun(Extended(history, id, tree)[id], path, row.sha, row.revision)
  {
    var k := (id, path);
    if id in history {
      var trees := history[id];
      if k in db.files {
        assert StartsRun(trees, path, db.files[k].sha, db.files[k].revision);
        RunExtends(trees, tree, path, db.files[k].sha, db.files[k].revision);
      } else {
        assert path !in Newest(trees);
        RunRestarts(trees, tree, path);
      }
    } else {
      assert k !in db.files;
      RunRestarts([], tree, path);
    }
  }

  lemma RunExtends(trees: seq<Tree>, tree: Tree, path: Path, sha: Hash, start: nat)
    requires StartsRun(trees, path, sha, start) && path in tree
    ensures tree[path] == sha ==> StartsRun(trees + [tree], path, sha, start)
    ensures tree[path] != sha ==> StartsRun(trees + [tree], path, tree[path], |trees| + 1)
  {
    forall n | 1 <= n <= |trees|
      ensures Holds(trees + [tree], n, path, sha) == Holds(trees, n, path, sha)
    {
    }
    assert Holds(trees, |trees|, path, sha);
  }

  lemma RunRestarts(trees: seq<Tree>, tree: Tree, path: Path)
    requires path in tree && (trees != [] ==> path !in Newest(trees))
    ensures StartsRun(trees + [tree], path, tree[path], |trees| + 1)
  {
  }

  lemma CommitKeepsBlobs(sha256: Bytes -> Hash, db: Db, projects: Projects, id: Id, device: string, tree: Tree)
    requires NothingDangles(db) && BlobsSound(sha256, db) && tree.Values <= db.blobs.Keys
    ensures var after := Db(projects, CommittedFiles(db, id, tree), db.blobs, CommittedRevisions(db, id, device, tree));
      NothingDangles(after) && BlobsSound(sha256, after)
  {
    var files := CommittedFiles(db, id, tree);
    forall k | k in files
      ensures files[k].sha in db.blobs && files[k].size == db.blobs[files[k].sha].size
    {
      if k.0 == id {
        assert tree[k.1] in tree.Values;
      } else {
        assert k in db.files;
      }
    }
    var revisions := CommittedRevisions(db, id, device, tree);
    forall k | k in revisions ensures revisions[k].tree.Values <= db.blobs.Keys {
    }
  }

  lemma OtherFilesUntouched(db: Db, id: Id, tree: Tree, other: Id)
    requires tree.Values <= db.blobs.Keys && other != id
    ensures FilesOf(CommittedFiles(db, id, tree), other) == FilesOf(db.files, other)
  {
    var files := CommittedFiles(db, id, tree);
    forall path ensures (other, path) in files <==> (other, path) in db.files {
    }
    assert PathsOf(files, other) == PathsOf(db.files, other);
  }

  lemma CommittedProjectSize(sha256: Bytes -> Hash, db: Db, id: Id, tree: Tree)
    requires NothingDangles(db) && BlobsSound(sha256, db) && tree.Values <= db.blobs.Keys
    ensures FileSizes(FilesOf(CommittedFiles(db, id, tree), id)) == WantedSizes(db, tree)
  {
    var files := CommittedFiles(db, id, tree);
    forall path ensures (id, path) in files <==> path in tree {
    }
    assert PathsOf(files, id) == tree.Keys;
    forall path | path in tree ensures files[(id, path)].size == WantedSizes(db, tree)[path] {
      assert tree[path] in tree.Values;
    }
  }

  lemma CommittedTotal(projects: Projects, id: Id, row: ProjectRow)
    ensures Total(ProjectSizes(projects[id := row])) == Total(ProjectSizes(projects - {id})) + row.size
  {
    var others := ProjectSizes(projects - {id});
    TotalInsert(others, id, row.size);
    assert ProjectSizes(projects[id := row]) == others[id := row.size];
  }
}
