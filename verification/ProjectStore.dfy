/** The request handlers, which change the tables row by row. */
module ProjectStore {
  import opened Prelude
  import opened Sums
  import opened ProjectSync
  import opened ProjectSyncInvariant
  import opened ProjectSyncRuns
  import IfMatch

  datatype FileRef = FileRef(path: Path, sha: Hash)
  datatype CommitIn = CommitIn(name: string, board: string, device: string, files: seq<FileRef>)

  predicate UniquePaths(files: seq<FileRef>) {
    forall i, j | 0 <= i < j < |files| :: files[i].path != files[j].path
  }

  function TreeOf(files: seq<FileRef>): (tree: Tree)
    ensures forall path :: path in tree <==> exists i :: 0 <= i < |files| && files[i].path == path
  {
    if files == [] then map[] else
      var last := files[|files| - 1];
      TreeOf(files[..|files| - 1])[last.path := last.sha]
  }

  lemma {:induction false} TreeOfAt(files: seq<FileRef>, i: nat)
    requires UniquePaths(files) && i < |files|
    ensures files[i].path in TreeOf(files) && TreeOf(files)[files[i].path] == files[i].sha
  {
    if i < |files| - 1 {
      TreeOfAt(files[..|files| - 1], i);
    }
  }

  lemma TreeOfHashes(files: seq<FileRef>)
    requires UniquePaths(files)
    ensures TreeOf(files).Values == set f | f in files :: f.sha
  {
    var tree := TreeOf(files);
    forall f | f in files ensures f.sha in tree.Values {
      var i :| 0 <= i < |files| && files[i] == f;
      TreeOfAt(files, i);
      assert tree[f.path] == f.sha;
    }
    forall path | path in tree ensures exists f :: f in files && f.sha == tree[path] {
      var i :| 0 <= i < |files| && files[i].path == path;
      TreeOfAt(files, i);
      assert files[i] in files;
    }
  }

  function Paths(files: seq<FileRef>): set<Path> { set f | f in files :: f.path }

  lemma PathsSnoc(files: seq<FileRef>, last: FileRef)
    ensures Paths(files + [last]) == Paths(files) + {last.path}
  {
    forall path | path in Paths(files) + {last.path} ensures path in Paths(files + [last]) {
      if path in Paths(files) {
        var f :| f in files && f.path == path;
        assert f in files + [last];
      } else {
        assert last in files + [last];
      }
    }
  }

  /** The handler's test for repeated paths: as many distinct paths as files. */
  lemma {:induction false} PathCount(files: seq<FileRef>)
    ensures |Paths(files)| <= |files|
    ensures |Paths(files)| == |files| <==> UniquePaths(files)
  {
    if files != [] {
      var front, last := files[..|files| - 1], files[|files| - 1];
      PathCount(front);
      assert files == front + [last];
      PathsSnoc(front, last);
      RepeatsLast(front, last);
    }
  }

  lemma RepeatsLast(files: seq<FileRef>, last: FileRef)
    ensures UniquePaths(files + [last]) <==> UniquePaths(files) && last.path !in Paths(files)
  {
    var all := files + [last];
    if UniquePaths(all) {
      forall f | f in files ensures f.path != last.path {
        var i :| 0 <= i < |files| && files[i] == f;
        assert all[i].path != all[|files|].path;
      }
      forall i, j | 0 <= i < j < |files| ensures files[i].path != files[j].path {
        assert all[i].path != all[j].path;
      }
    } else if last.path !in Paths(files) {
      var i, j :| 0 <= i < j < |all| && all[i].path == all[j].path;
      assert all[i] in files;
      assert j < |files| by { assert all[i].path in Paths(files); }
      assert files[i].path == files[j].path;
    }
  }

  method SumSizes<K(!new)>(m: map<K, nat>) returns (total: nat)
    ensures total == Total(m)
  {
    total := 0;
    var rest := m;
    while rest != map[]
      invariant total + Total(rest) == Total(m)
      decreases |rest|
    {
      var k :| k in rest;
      TotalRemove(rest, k);
      total := total + rest[k];
      rest := rest - {k};
    }
  }

  class Store {
    const sha256: Bytes -> Hash
    var projects: map<Id, ProjectRow>
    var files: map<(Id, Path), FileRow>
    var blobs: map<Hash, BlobRow>
    var revisions: map<(Id, nat), RevisionRow>
    ghost var history: History

    ghost function Tables(): Db
      reads this
    {
      Db(projects, files, blobs, revisions)
    }

    lemma TableFields()
      ensures Tables() == Db(projects, files, blobs, revisions)
    {
    }

    ghost predicate Valid()
      reads this
    {
      Inv(sha256, Tables(), history)
    }

    lemma ValidIs()
      ensures Valid() <==> Inv(sha256, Tables(), history)
    {
    }

    constructor (sha256: Bytes -> Hash)
      ensures Valid() && Tables() == EMPTY && history == map[] && this.sha256 == sha256
    {
      this.sha256 := sha256;
      projects, files, blobs, revisions, history := map[], map[], map[], map[], map[];
      new;
      Reachable(sha256, []);
    }

    method CollectBlobs()
      modifies this`blobs
      ensures Tables() == Collect(old(Tables()))
    {
      hide UsedOutside, Collect, Used;
      ghost var db := Tables();
      var used: set<Hash> := set k | k in files :: files[k].sha;
      var todo := revisions.Keys;
      NoneOutside(revisions);
      while todo != {}
        invariant todo <= revisions.Keys && blobs == db.blobs
        invariant forall h :: h in used <==> UsedByFile(files, h) || UsedOutside(revisions, todo, h)
        decreases |todo|
      {
        var k :| k in todo;
        OneLessOutside(revisions, todo, k);
        used := used + revisions[k].tree.Values;
        todo := todo - {k};
      }
      AllOutside(revisions);
      var unused := set h | h in blobs && h !in used;
      CollectIs(db, used, unused);
      blobs := blobs - unused;
    }

    method DropUnwanted(id: Id, wanted: Tree)
      modifies this`files
      ensures files == Editing(old(files), id, wanted, {}, map[])
    {
      hide Editing;
      var current := FilesOf(files, id);
      var todo := current.Keys;
      NothingDropped(files, id, wanted);
      while todo != {}
        invariant todo <= current.Keys
        invariant files == Editing(old(files), id, wanted, todo, map[])
        decreases |todo|
      {
        var path :| path in todo;
        DropOne(old(files), id, wanted, todo, path);
        if path !in wanted {
          files := files - {(id, path)};
        }
        todo := todo - {path};
      }
    }

    method PutWanted(id: Id, wanted: Tree, revision: nat, ghost db: Db)
      requires db.blobs == blobs && wanted.Values <= blobs.Keys && revision == NextRevision(db, id)
      requires files == Editing(db.files, id, wanted, {}, map[])
      modifies this`files
      ensures files == CommittedFiles(db, id, wanted)
    {
      hide CommittedFiles, CommittedFile, FilesOf, Editing;
      var current := FilesOf(files, id);
      CurrentRows(db, id, wanted);
      var todo := wanted.Keys;
      assert PutSoFar(db, id, wanted, todo) == map[];
      while todo != {}
        invariant todo <= wanted.Keys
        invariant files == Editing(db.files, id, wanted, {}, PutSoFar(db, id, wanted, todo))
        decreases |todo|
      {
        var path :| path in todo;
        var sha := wanted[path];
        assert sha in wanted.Values;
        PutOne(db, id, wanted, todo, path);
        if path !in current {
          files := files[(id, path) := FileRow(sha, blobs[sha].size, revision)];
        } else if current[path].sha != sha {
          files := files[(id, path) := files[(id, path)].(sha := sha, size := blobs[sha].size, revision := revision)];
        }
        todo := todo - {path};
      }
      AllPut(db, id, wanted);
    }

    method CommitProject(id: Id, ifMatch: Option<string>, body: CommitIn, now: int) returns (reply: Reply)
      requires Valid()
      modifies this
      ensures Valid()
      ensures !UniquePaths(body.files) ==> reply == RepeatedPath && Tables() == old(Tables())
      ensures UniquePaths(body.files) && IfMatch.Match(ifMatch).Err? ==>
        reply == PreconditionFailed && Tables() == old(Tables())
      ensures UniquePaths(body.files) && IfMatch.Match(ifMatch).Ok? ==>
        var base, wanted := IfMatch.Match(ifMatch).value, CommitBody(body.name, body.board, body.device, TreeOf(body.files));
        reply == CommitReply(old(Tables()), id, base, wanted.tree)
        && Tables() == Commit(old(Tables()), id, base, wanted, now)
        && history == Record(old(Tables()), old(history), CommitOp(id, base, wanted, now))
    {
      hide Inv, TreeOf, WantedSizes, CommitReply, Commit, Record, UniquePaths;
      PathCount(body.files);
      if |Paths(body.files)| != |body.files| {
        return RepeatedPath;
      }
      var precondition := IfMatch.Match(ifMatch);
      if precondition.Err? {
        return PreconditionFailed;
      }
      var base := precondition.value;
      var refusal, size := Refusal(id, base, body.files);
      if refusal.Some? {
        RefusedCommit(Tables(), history, id, base, CommitBody(body.name, body.board, body.device, TreeOf(body.files)), now);
        return refusal.value;
      }
      reply := Write(id, base, body, size, now);
    }

    /** The checks a commit passes before anything is written. */
    method Refusal(id: Id, base: Option<nat>, list: seq<FileRef>) returns (refusal: Option<Reply>, size: nat)
      requires UniquePaths(list)
      ensures var reply := CommitReply(Tables(), id, base, TreeOf(list));
        if refusal.Some? then refusal.value == reply && !reply.Committed?
        else reply.Committed? && TreeOf(list).Values <= blobs.Keys && size == Total(WantedSizes(Tables(), TreeOf(list)))
    {
      hide TreeOf, WantedSizes, UniquePaths, Total, FilesOf, ProjectSizes;
      size := 0;
      if id in projects && (base.None? || base.value != projects[id].revision) {
        return Some(Conflict(TreeView(projects[id], FilesOf(files, id)))), 0;
      }
      if id !in projects && base != None && base != Some(0) {
        return Some(NotFound), 0;
      }
      var hashes := set f | f in list :: f.sha;
      TreeOfHashes(list);
      assert TreeOf(list).Values == hashes;
      var missing := hashes - blobs.Keys;
      if missing != {} {
        return Some(Missing(missing)), 0;
      }
      assert forall h | h in hashes && h !in blobs :: h in missing;
      size := SizeOf(list);
      if size > MAX_PROJECT {
        return Some(ProjectTooLarge), size;
      }
      var others := SumSizes(ProjectSizes(projects - {id}));
      if others + size > QUOTA {
        return Some(SpaceFull), size;
      }
      refusal := None;
    }

    /** The sum over the listed files of their blobs' sizes. */
    method SizeOf(list: seq<FileRef>) returns (size: nat)
      requires UniquePaths(list) && TreeOf(list).Values <= blobs.Keys
      ensures size == Total(WantedSizes(Tables(), TreeOf(list)))
    {
      hide Total;
      size := 0;
      var i := 0;
      assert TreeOf(list[..0]) == map[];
      TotalEmpty(WantedSizes(Tables(), TreeOf(list[..0])));
      while i < |list|
        invariant 0 <= i <= |list|
        invariant TreeOf(list[..i]).Values <= blobs.Keys
        invariant size == Total(WantedSizes(Tables(), TreeOf(list[..i])))
      {
        WantedSnoc(Tables(), list, i);
        size := size + blobs[list[i].sha].size;
        i := i + 1;
      }
      assert list[..i] == list;
    }

    method AppendRevision(id: Id, revision: nat, device: string, wanted: Tree, ghost db: Db)
      requires db.revisions == revisions && revision == NextRevision(db, id)
      modifies this`revisions
      ensures revisions == CommittedRevisions(db, id, device, wanted)
    {
      hide NextRevision;
      revisions := revisions[(id, revision) := RevisionRow(device, wanted)];
      revisions := map k | k in revisions && !(k.0 == id && k.1 <= revision - KEEP_REVISIONS) :: revisions[k];
    }

    /** An accepted commit. */
    method Write(id: Id, base: Option<nat>, body: CommitIn, size: nat, now: int) returns (reply: Reply)
      requires Valid() && UniquePaths(body.files)
      requires CommitReply(Tables(), id, base, TreeOf(body.files)).Committed?
      requires size == Total(WantedSizes(Tables(), TreeOf(body.files)))
      modifies this
      ensures var wanted := CommitBody(body.name, body.board, body.device, TreeOf(body.files));
        reply == CommitReply(old(Tables()), id, base, wanted.tree)
        && Tables() == Commit(old(Tables()), id, base, wanted, now)
        && history == Record(old(Tables()), old(history), CommitOp(id, base, wanted, now))
      ensures Valid()
    {
      hide *;
      TableFields();
      ValidIs();
      ghost var db := Tables();
      ghost var put := CommitBody(body.name, body.board, body.device, TreeOf(body.files));
      CommitKeeps(sha256, db, history, id, base, put, now);
      AcceptedCommit(db, history, id, base, put, now);
      var project := if id in projects then projects[id] else ProjectRow("", "", 0, 0, None, now);
      var revision := project.revision + 1;
      var wanted := TreeOf(body.files);
      DropUnwanted(id, wanted);
      PutWanted(id, wanted, revision, db);
      projects := projects[id := ProjectRow(
          if body.name != "" then body.name else project.name,
          if body.board != "" then body.board else project.board,
          revision, size, None, now)];
      AppendRevision(id, revision, body.device, wanted, db);
      history := Extended(history, id, wanted);
      TableFields();
      CollectBlobs();
      ValidIs();
      reply := Committed(revision);
    }

    method UploadBlobs(items: seq<BlobIn>) returns (reply: Reply)
      requires Valid()
      modifies this`blobs
      ensures Valid()
      ensures reply == UploadReply(sha256, old(Tables()), items)
      ensures Tables() == Upload(sha256, old(Tables()), items)
    {
      hide Inv, Decode, NewBlobs, BlobSizes, Total;
      UploadKeeps(sha256, Tables(), history, items);
      if |items| > MAX_UPLOADS {
        return TooManyUploads;
      }
      var decoded := DecodeAll(items);
      if decoded.Err? {
        return BadUpload(decoded.error);
      }
      var added := NewBlobs(Db(projects, files, blobs, revisions), decoded.value);
      var stored := SumSizes(BlobSizes(blobs));
      var more := SumSizes(BlobSizes(added));
      if stored + more > QUOTA + MAX_PROJECT {
        return SpaceFull;
      }
      reply := Uploaded(added.Keys, decoded.value.Keys * blobs.Keys);
      blobs := blobs + added;
    }

    method DecodeAll(items: seq<BlobIn>) returns (result: Result<map<Hash, Bytes>, UploadError>)
      ensures result == Decode(sha256, items)
    {
      var decoded: map<Hash, Bytes> := map[];
      var i := 0;
      while i < |items|
        invariant 0 <= i <= |items|
        invariant Decode(sha256, items[..i]) == Ok(decoded)
      {
        assert items[..i + 1][..i] == items[..i];
        var content := CheckUpload(sha256, items[i]);
        if content.Err? {
          FirstErrorStays(sha256, items, i + 1);
          return Err(content.error);
        }
        decoded := decoded[items[i].sha := content.value];
        i := i + 1;
      }
      assert items[..i] == items;
      result := Ok(decoded);
    }

    method DeleteProject(id: Id, ifMatch: Option<string>, now: int) returns (reply: Reply)
      requires Valid()
      modifies this`projects
      ensures Valid()
      ensures IfMatch.Match(ifMatch).Err? ==> reply == PreconditionFailed && Tables() == old(Tables())
      ensures IfMatch.Match(ifMatch).Ok? ==>
        var base := IfMatch.Match(ifMatch).value;
        reply == DeleteReply(old(Tables()), id, base, now) && Tables() == Delete(old(Tables()), id, base, now)
    {
      hide Inv, FilesOf;
      var precondition := IfMatch.Match(ifMatch);
      if precondition.Err? {
        return PreconditionFailed;
      }
      var base := precondition.value;
      if id !in projects {
        return NotFound;
      }
      var project := projects[id];
      if base.Some? && base.value != project.revision {
        return Conflict(TreeView(project, FilesOf(files, id)));
      }
      if project.deletedAt.None? {
        DatesKeep(sha256, Tables(), history, id, project.(deletedAt := Some(now), updatedAt := now));
        projects := projects[id := project.(deletedAt := Some(now), updatedAt := now)];
      }
      reply := Deleted(projects[id].deletedAt.value + DELETED_KEPT);
    }

    method RestoreProject(id: Id, now: int) returns (reply: Reply)
      requires Valid()
      modifies this`projects
      ensures Valid()
      ensures Tables() == Restore(old(Tables()), id, now)
      ensures reply == if id in old(projects) then Restored(View(Tables(), id)) else NotFound
    {
      hide Inv, FilesOf;
      if id !in projects {
        return NotFound;
      }
      if projects[id].deletedAt.Some? {
        DatesKeep(sha256, Tables(), history, id, projects[id].(deletedAt := None, updatedAt := now));
        projects := projects[id := projects[id].(deletedAt := None, updatedAt := now)];
      }
      reply := Restored(TreeView(projects[id], FilesOf(files, id)));
    }

    method ListProjects(now: int) returns (reply: Reply)
      requires Valid()
      modifies this
      ensures Valid()
      ensures Tables() == Purge(old(Tables()), now) && reply == Listed(projects)
      ensures history == Record(old(Tables()), old(history), ListOp(now))
    {
      hide Inv, Collect, Without, Remaining, Survives;
      ghost var db := Tables();
      PurgeKeeps(sha256, db, history, now);
      history := Record(db, history, ListOp(now));
      RemoveDue(now);
      CollectBlobs();
      reply := Listed(projects);
    }

    method RemoveDue(now: int)
      modifies this`projects, this`files, this`revisions
      ensures Tables() == Remaining(old(Tables()), now)
    {
      hide Without, Remaining;
      var marked := set id | id in projects && projects[id].deletedAt.Some?;
      var todo := marked;
      ghost var gone: set<Id> := {};
      WithoutNone(Tables());
      while todo != {}
        invariant todo <= marked && gone !! todo
        invariant Tables() == Without(old(Tables()), gone)
        invariant forall id :: id in gone <==> id in marked && id !in todo && Due(old(projects)[id], now)
        decreases |todo|
      {
        var id :| id in todo;
        WithoutRow(old(Tables()), gone, id);
        if projects[id].deletedAt.value < now - DELETED_KEPT {
          files := map k | k in files && k.0 != id :: files[k];
          revisions := map k | k in revisions && k.0 != id :: revisions[k];
          projects := projects - {id};
          WithoutOneMore(old(Tables()), gone, id);
          gone := gone + {id};
        }
        todo := todo - {id};
      }
      WithoutDue(old(Tables()), gone, now);
    }
  }

  function Without(db: Db, gone: set<Id>): Db {
    Db(map id | id in db.projects && id !in gone :: db.projects[id],
      map k | k in db.files && k.0 !in gone :: db.files[k],
      db.blobs,
      map k | k in db.revisions && k.0 !in gone :: db.revisions[k])
  }

  lemma WithoutNone(db: Db)
    ensures Without(db, {}) == db
  {
    assert Without(db, {}).projects == db.projects && Without(db, {}).files == db.files && Without(db, {}).revisions == db.revisions;
  }

  lemma WithoutRow(db: Db, gone: set<Id>, id: Id)
    requires id in db.projects && id !in gone
    ensures id in Without(db, gone).projects && Without(db, gone).projects[id] == db.projects[id]
  {
  }

  lemma WithoutOneMore(db: Db, gone: set<Id>, id: Id)
    ensures var before := Without(db, gone);
      Without(db, gone + {id}) == Db(before.projects - {id},
        map k | k in before.files && k.0 != id :: before.files[k],
        before.blobs,
        map k | k in before.revisions && k.0 != id :: before.revisions[k])
  {
    var before, after := Without(db, gone), Without(db, gone + {id});
    assert after.projects == before.projects - {id};
  }

  lemma WithoutDue(db: Db, gone: set<Id>, now: int)
    requires forall id :: id in gone <==> id in db.projects && Due(db.projects[id], now)
    ensures Without(db, gone) == Remaining(db, now)
  {
    hide Due;
  }

  lemma {:induction false} FirstErrorStays(sha256: Bytes -> Hash, items: seq<BlobIn>, i: nat)
    requires i <= |items| && Decode(sha256, items[..i]).Err?
    ensures Decode(sha256, items) == Decode(sha256, items[..i])
    decreases |items|
  {
    if i < |items| {
      var front := items[..|items| - 1];
      assert front[..i] == items[..i];
      FirstErrorStays(sha256, front, i);
    } else {
      assert items[..i] == items;
    }
  }

  lemma RefusedCommit(db: Db, history: History, id: Id, base: Option<nat>, body: CommitBody, now: int)
    requires !CommitReply(db, id, base, body.tree).Committed?
    ensures Commit(db, id, base, body, now) == db && Record(db, history, CommitOp(id, base, body, now)) == history
  {
    hide CommitReply;
  }

  lemma AcceptedCommit(db: Db, history: History, id: Id, base: Option<nat>, body: CommitBody, now: int)
    requires CommitReply(db, id, base, body.tree).Committed?
    ensures body.tree.Values <= db.blobs.Keys
    ensures CommitReply(db, id, base, body.tree) == Committed(NextRevision(db, id))
    ensures NextRevision(db, id) == (if id in db.projects then db.projects[id] else ProjectRow("", "", 0, 0, None, now)).revision + 1
    ensures Record(db, history, CommitOp(id, base, body, now)) == Extended(history, id, body.tree)
    ensures Commit(db, id, base, body, now) == Collect(Db(db.projects[id := CommittedProject(db, id, body, now)],
      CommittedFiles(db, id, body.tree), db.blobs, CommittedRevisions(db, id, body.device, body.tree)))
    ensures CommittedProject(db, id, body, now) ==
      var project := if id in db.projects then db.projects[id] else ProjectRow("", "", 0, 0, None, now);
      ProjectRow(if body.name != "" then body.name else project.name, if body.board != "" then body.board else project.board,
        NextRevision(db, id), Total(WantedSizes(db, body.tree)), None, now)
  {
    hide Collect, CommittedFiles, CommittedRevisions, WantedSizes;
  }

  lemma TotalEmpty<K(!new)>(m: map<K, nat>)
    requires m == map[]
    ensures Total(m) == 0
  {
  }

  lemma WantedSnoc(db: Db, list: seq<FileRef>, i: nat)
    requires i < |list| && UniquePaths(list) && TreeOf(list).Values <= db.blobs.Keys
    requires TreeOf(list[..i]).Values <= db.blobs.Keys
    ensures list[i].sha in db.blobs && TreeOf(list[..i + 1]).Values <= db.blobs.Keys
    ensures Total(WantedSizes(db, TreeOf(list[..i + 1])))
      == Total(WantedSizes(db, TreeOf(list[..i]))) + db.blobs[list[i].sha].size
  {
    hide Total, WantedSizes, TreeOf, UniquePaths;
    TreeOfNext(list, i);
    WantedInsert(db, TreeOf(list[..i]), list[i].path, list[i].sha);
  }

  lemma PathIsNew(list: seq<FileRef>, i: nat)
    requires i < |list| && UniquePaths(list)
    ensures list[i].path !in TreeOf(list[..i])
  {
    var front := list[..i];
    assert forall k | 0 <= k < i :: front[k] == list[k];
  }

  lemma InValues(tree: Tree, path: Path)
    requires path in tree
    ensures tree[path] in tree.Values
  {
  }

  lemma TreeOfNext(list: seq<FileRef>, i: nat)
    requires i < |list| && UniquePaths(list)
    ensures list[i].path !in TreeOf(list[..i])
    ensures TreeOf(list[..i + 1]) == TreeOf(list[..i])[list[i].path := list[i].sha]
    ensures list[i].sha in TreeOf(list).Values
  {
    hide *;
    PathIsNew(list, i);
    assert list[..i + 1] == list[..i] + [list[i]];
    TreeOfSnoc(list[..i], list[i]);
    TreeOfAt(list, i);
    InValues(TreeOf(list), list[i].path);
  }

  lemma TreeOfSnoc(front: seq<FileRef>, last: FileRef)
    ensures TreeOf(front + [last]) == TreeOf(front)[last.path := last.sha]
  {
    assert (front + [last])[..|front|] == front;
  }

  lemma WantedInsert(db: Db, tree: Tree, path: Path, sha: Hash)
    requires tree.Values <= db.blobs.Keys && path !in tree && sha in db.blobs
    ensures tree[path := sha].Values <= db.blobs.Keys
    ensures Total(WantedSizes(db, tree[path := sha])) == Total(WantedSizes(db, tree)) + db.blobs[sha].size
  {
    hide Total;
    var next := tree[path := sha];
    forall p | p in next ensures next[p] in db.blobs {
      if p != path { assert tree[p] in tree.Values; }
    }
    var sizes := WantedSizes(db, tree);
    TotalInsert(sizes, path, db.blobs[sha].size);
    assert WantedSizes(db, tree[path := sha]) == sizes[path := db.blobs[sha].size];
  }

  function PutSoFar(db: Db, id: Id, wanted: Tree, todo: set<Path>): map<Path, FileRow>
    requires wanted.Values <= db.blobs.Keys
  {
    map path | path in wanted && path !in todo :: CommittedFile(db, id, wanted, path)
  }

  lemma CurrentRows(db: Db, id: Id, wanted: Tree)
    ensures var current := FilesOf(Editing(db.files, id, wanted, {}, map[]), id);
      forall path :: (path in current <==> (id, path) in db.files && path in wanted)
        && (path in current ==> current[path] == db.files[(id, path)])
  {
  }

  lemma PutRow(db: Db, id: Id, wanted: Tree, todo: set<Path>, path: Path)
    requires wanted.Values <= db.blobs.Keys && path in todo && path in wanted
    ensures Editing(db.files, id, wanted, {}, PutSoFar(db, id, wanted, todo - {path}))
      == Editing(db.files, id, wanted, {}, PutSoFar(db, id, wanted, todo))[(id, path) := CommittedFile(db, id, wanted, path)]
  {
    hide CommittedFile;
    var put, more := PutSoFar(db, id, wanted, todo), PutSoFar(db, id, wanted, todo - {path});
    assert more == put[path := CommittedFile(db, id, wanted, path)];
  }

  lemma PutOne(db: Db, id: Id, wanted: Tree, todo: set<Path>, path: Path)
    requires wanted.Values <= db.blobs.Keys && path in todo && path in wanted
    ensures var before := Editing(db.files, id, wanted, {}, PutSoFar(db, id, wanted, todo));
      var row := CommittedFile(db, id, wanted, path);
      && Editing(db.files, id, wanted, {}, PutSoFar(db, id, wanted, todo - {path})) == before[(id, path) := row]
      && ((id, path) in before <==> (id, path) in db.files)
      && ((id, path) in db.files ==> before[(id, path)] == db.files[(id, path)])
      && row == if (id, path) in db.files && db.files[(id, path)].sha == wanted[path] then db.files[(id, path)]
                else assert wanted[path] in wanted.Values; FileRow(wanted[path], db.blobs[wanted[path]].size, NextRevision(db, id))
  {
    hide NextRevision;
    PutRow(db, id, wanted, todo, path);
  }

  lemma AllPut(db: Db, id: Id, wanted: Tree)
    requires wanted.Values <= db.blobs.Keys
    ensures Editing(db.files, id, wanted, {}, PutSoFar(db, id, wanted, {})) == CommittedFiles(db, id, wanted)
  {
    hide CommittedFile;
  }

  predicate UsedOutside(revisions: map<(Id, nat), RevisionRow>, todo: set<(Id, nat)>, h: Hash) {
    exists k :: k in revisions && k !in todo && h in revisions[k].tree.Values
  }

  lemma NothingDropped(files: Files, id: Id, wanted: Tree)
    ensures Editing(files, id, wanted, FilesOf(files, id).Keys, map[]) == files
  {
  }

  lemma DropOne(files: Files, id: Id, wanted: Tree, todo: set<Path>, path: Path)
    ensures Editing(files, id, wanted, todo - {path}, map[]) ==
      if path in wanted then Editing(files, id, wanted, todo, map[]) else Editing(files, id, wanted, todo, map[]) - {(id, path)}
  {
  }

  lemma NoneOutside(revisions: map<(Id, nat), RevisionRow>)
    ensures forall h :: !UsedOutside(revisions, revisions.Keys, h)
  {
  }

  lemma OneLessOutside(revisions: map<(Id, nat), RevisionRow>, todo: set<(Id, nat)>, k: (Id, nat))
    requires k in todo && k in revisions
    ensures forall h :: UsedOutside(revisions, todo - {k}, h) <==> UsedOutside(revisions, todo, h) || h in revisions[k].tree.Values
  {
    forall h | UsedOutside(revisions, todo, h) ensures UsedOutside(revisions, todo - {k}, h) {
      var j :| j in revisions && j !in todo && h in revisions[j].tree.Values;
      assert j !in todo - {k};
    }
  }

  lemma AllOutside(revisions: map<(Id, nat), RevisionRow>)
    ensures forall h :: UsedOutside(revisions, {}, h) <==> UsedByRevision(revisions, h)
  {
  }

  lemma CollectIs(db: Db, used: set<Hash>, unused: set<Hash>)
    requires forall h :: h in used <==> UsedByFile(db.files, h) || UsedByRevision(db.revisions, h)
    requires forall h :: h in unused <==> h in db.blobs && h !in used
    ensures Collect(db) == db.(blobs := db.blobs - unused)
  {
    assert forall h :: h in used <==> Used(db, h);
  }

  /** The rows part way through a commit: unwanted ones still to be dropped, and those already put. */
  function Editing(before: Files, id: Id, wanted: Tree, undropped: set<Path>, put: map<Path, FileRow>): Files {
    map k | k in before.Keys + (set path | path in put :: (id, path)) && (k.0 == id ==> k.1 in wanted || k.1 in undropped)
      :: if k.0 == id && k.1 in put then put[k.1] else before[k]
  }
}
