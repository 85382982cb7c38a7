/** What pruning leaves of a library, and what a library's parents lead to. */
module LibraryPruning {
  import opened Basics
  import opened MusicDatabase
  import opened LibraryIndex
  import opened LibraryTree
  import opened LibraryInvariant

  // ----- Any database -----

  /** An object that is left still refers to its metadata, however many objects
      share it, and still has the same content. */
  lemma SurvivorsKeepMetadata(db: Db, db': Db, exists': Path -> bool, id: int)
    requires IsPruned(db, db', exists') && id in db'.objects.rows
    ensures db'.ContentAt(id) == db.ContentAt(id)
  {
  }

  // ----- The index of a pruned library -----

  /** A directory exists if something in it does. */
  ghost predicate IsPrefixClosed(exists': Path -> bool) {
    forall path: Path :: |path| > 1 && exists'(path) ==> exists'(path[..|path| - 1])
  }

  predicate Survives(e: Entry, exists': Path -> bool) {
    e.content.filePath == None || exists'(e.content.filePath.value)
  }

  ghost function Pruned(idx: Index, exists': Path -> bool): Index {
    map i | i in idx && Survives(idx[i], exists') :: idx[i]
  }

  lemma ParentSurvives(idx: Index, i: Ident, exists': Path -> bool)
    requires Shape(idx) && IsPrefixClosed(exists') && i in idx && Survives(idx[i], exists') && idx[i].parent in idx
    ensures Survives(idx[idx[i].parent], exists')
  {
    hide FileWellPlaced, IsFolder;
    var parent := idx[i].parent;
    assert WellPlaced(idx, i, idx[i]);
    assert WellPlaced(idx, parent, idx[parent]);
  }

  lemma PrunedKeepsShape(idx: Index, exists': Path -> bool)
    requires Shape(idx) && IsPrefixClosed(exists')
    ensures Shape(Pruned(idx, exists'))
  {
    hide WellPlaced, Survives, IsPrefixClosed;
    var idx' := Pruned(idx, exists');
    LayoutSurvives(idx, exists');
    forall i | i in idx'
      ensures WellPlaced(idx', i, idx'[i])
    {
      if idx[i].parent in idx {
        ParentSurvives(idx, i, exists');
      }
      StaysWellPlaced(idx, i, exists');
    }
  }

  lemma LayoutSurvives(idx: Index, exists': Path -> bool)
    requires Shape(idx)
    ensures Includes(Pruned(idx, exists'), LAYOUT)
  {
    hide WellPlaced;
    assert forall i :: i in LAYOUT ==> Survives(LAYOUT[i], exists');
  }

  lemma StaysWellPlaced(idx: Index, i: Ident, exists': Path -> bool)
    requires i in Pruned(idx, exists') && WellPlaced(idx, i, idx[i])
    requires idx[i].parent in idx ==> Survives(idx[idx[i].parent], exists')
    requires Shape(idx)
    ensures WellPlaced(Pruned(idx, exists'), i, idx[i])
  {
    hide IsPlayable, Shape;
    CopySurvives(idx, i, exists');
  }

  /** The two objects of a song have the same path, and go together. */
  lemma CopySurvives(idx: Index, i: Ident, exists': Path -> bool)
    requires Shape(idx) && i in idx && Survives(idx[i], exists')
    ensures i.Node? && AlbumTrack(i.path) in idx ==> AlbumTrack(i.path) in Pruned(idx, exists')
    ensures i.AlbumTrack? ==> Node(i.path) in Pruned(idx, exists')
  {
    hide FileWellPlaced, BelongsUnder;
    assert WellPlaced(idx, i, idx[i]);
    if i.Node? && AlbumTrack(i.path) in idx {
      assert WellPlaced(idx, AlbumTrack(i.path), idx[AlbumTrack(i.path)]);
    }
  }

  // ----- Pruning between scans -----

  /** What is known of a thing includes its path. */
  ghost predicate KnowsPaths(idx: Index) {
    forall i :: i in idx ==> idx[i].content.filePath == OwnPath(i)
  }

  function OwnPath(i: Ident): Option<Path> {
    match i
    case Node(path) => Some(path)
    case AlbumTrack(path) => Some(path)
    case _ => None
  }

  lemma CalledForPath(v: Visit, i: Ident)
    requires CallsFor(v, i) && v.path != []
    ensures CalledFor(v, i).content.filePath == OwnPath(i)
    ensures OwnPath(i) == None || OwnPath(i) == Some(v.path)
  {
    hide ClassOfFile, MimeTypeOfFile, HasAlbum;
  }

  lemma VisitedKnowsPaths(idx: Index, v: Visit)
    requires KnowsPaths(idx) && v.path != []
    ensures KnowsPaths(Visited(idx, v))
  {
    hide CallsFor, CalledFor, Visited, OwnPath;
    var idx' := Visited(idx, v);
    if Node(v.path) in idx {
      VisitedAgain(idx, v);
      return;
    }
    forall i | i in idx'
      ensures idx'[i].content.filePath == OwnPath(i)
    {
      VisitedExactly(idx, v, i);
      if i !in idx {
        CalledForPath(v, i);
      }
    }
  }

  lemma VisitedAgain(idx: Index, v: Visit)
    requires Node(v.path) in idx
    ensures Visited(idx, v) == idx
  {
  }

  /** Pruning before or after the visit of an existing entry is the same. */
  lemma PrunedVisited(idx: Index, v: Visit, exists': Path -> bool)
    requires KnowsPaths(idx) && v.path != [] && exists'(v.path)
    ensures Visited(Pruned(idx, exists'), v) == Pruned(Visited(idx, v), exists')
  {
    hide CallsFor, CalledFor, Visited;
    if Node(v.path) in idx {
      VisitedAgain(idx, v);
      VisitedAgain(Pruned(idx, exists'), v);
      return;
    }
    hide Pruned;
    forall i
      ensures i in Visited(Pruned(idx, exists'), v) <==> i in Pruned(Visited(idx, v), exists')
      ensures i in Pruned(Visited(idx, v), exists') ==>
                Visited(Pruned(idx, exists'), v)[i] == Pruned(Visited(idx, v), exists')[i]
    {
      PrunedVisitedAt(idx, v, exists', i);
    }
  }

  lemma PrunedVisitedAt(idx: Index, v: Visit, exists': Path -> bool, i: Ident)
    requires KnowsPaths(idx) && v.path != [] && exists'(v.path) && Node(v.path) !in idx
    ensures i in Visited(Pruned(idx, exists'), v) <==> i in Pruned(Visited(idx, v), exists')
    ensures i in Pruned(Visited(idx, v), exists') ==>
              Visited(Pruned(idx, exists'), v)[i] == Pruned(Visited(idx, v), exists')[i]
  {
    hide CallsFor, CalledFor, Visited;
    VisitedExactly(idx, v, i);
    VisitedExactly(Pruned(idx, exists'), v, i);
    if CallsFor(v, i) {
      CalledForPath(v, i);
    }
  }

  /** All these entries exist. */
  ghost predicate AllExist(vs: seq<Visit>, exists': Path -> bool) {
    forall k :: 0 <= k < |vs| ==> vs[k].path != [] && exists'(vs[k].path)
  }

  lemma {:induction false} PrunedFold(idx: Index, vs: seq<Visit>, exists': Path -> bool)
    requires KnowsPaths(idx) && AllExist(vs, exists')
    ensures Fold(Pruned(idx, exists'), vs) == Pruned(Fold(idx, vs), exists') && KnowsPaths(Fold(idx, vs))
  {
    hide Visited, Pruned, KnowsPaths;
    if vs != [] {
      var n := |vs| - 1;
      PrunedFold(idx, vs[..n], exists');
      PrunedVisited(Fold(idx, vs[..n]), vs[n], exists');
      VisitedKnowsPaths(Fold(idx, vs[..n]), vs[n]);
    }
  }

  lemma {:induction false} FoldKnowsPaths(idx: Index, vs: seq<Visit>)
    requires KnowsPaths(idx) && forall k :: 0 <= k < |vs| ==> vs[k].path != []
    ensures KnowsPaths(Fold(idx, vs))
  {
    hide Visited, KnowsPaths;
    if vs != [] {
      var n := |vs| - 1;
      FoldKnowsPaths(idx, vs[..n]);
      VisitedKnowsPaths(Fold(idx, vs[..n]), vs[n]);
    }
  }

  lemma PrunedTwice(idx: Index, exists': Path -> bool)
    ensures Pruned(Pruned(idx, exists'), exists') == Pruned(idx, exists')
  {
    hide Survives;
  }

  /** A path is indexed after a traversal if it was before, or if an entry calls for it. */
  lemma {:induction false} FoldNodes(idx: Index, vs: seq<Visit>, path: Path)
    ensures Node(path) in Fold(idx, vs) <==>
            Node(path) in idx || exists k :: 0 <= k < |vs| && vs[k].path == path && GetsObject(vs[k].entry)
  {
    hide Visited, GetsObject;
    if vs != [] {
      var n := |vs| - 1;
      FoldNodes(idx, vs[..n], path);
      NodeVisited(Fold(idx, vs[..n]), vs[n], path);
      if k :| 0 <= k < |vs| && vs[k].path == path && GetsObject(vs[k].entry) {
        assert k < n ==> vs[..n][k] == vs[k];
      }
    }
  }

  lemma NodeVisited(idx: Index, v: Visit, path: Path)
    ensures Node(path) in Visited(idx, v) <==> Node(path) in idx || (v.path == path && GetsObject(v.entry))
  {
    hide CalledFor, Visited, ClassOfFile;
    if Node(v.path) in idx {
      VisitedAgain(idx, v);
    } else {
      VisitedExactly(idx, v, Node(path));
    }
  }

  /** After a traversal and a prune, exactly the existing paths are indexed that were
      indexed before or that an entry calls for. */
  lemma ScanAndPruneMatchTree(idx: Index, vs: seq<Visit>, exists': Path -> bool, path: Path)
    requires KnowsPaths(idx) && forall k :: 0 <= k < |vs| ==> vs[k].path != []
    ensures Node(path) in Pruned(Fold(idx, vs), exists') <==>
            exists'(path)
            && (Node(path) in idx || exists k :: 0 <= k < |vs| && vs[k].path == path && GetsObject(vs[k].entry))
  {
    hide Fold, GetsObject;
    FoldKnowsPaths(idx, vs);
    FoldNodes(idx, vs, path);
  }

  // ----- The rows of a pruned library -----

  lemma GoneMeansNotSurviving(db: Db, exists': Path -> bool, id: int)
    requires Linked(db) && id in db.objects.rows
    ensures IsGone(db, id, exists') <==> !Survives(EntryOf(db, id), exists')
  {
    hide IdentOf;
    assert LinkedRow(db, id, db.objects.rows[id]);
  }

  lemma PrunedKeepsLinks(db: Db, db': Db, exists': Path -> bool)
    requires IsLibrary(db) && IsPruned(db, db', exists') && IsPrefixClosed(exists')
    ensures Linked(db')
  {
    hide IsPrefixClosed, IndexOf, Injective, IdentOf, EntryOf, Shape, Survives, IsGone, IsMetadataOfGone, Table.Valid;
    forall id | id in db'.objects.rows
      ensures LinkedRow(db', id, db'.objects.rows[id])
    {
      var row := db.objects.rows[id];
      assert LinkedRow(db, id, row);
      SurvivorKeepsMetadata(db, db', exists', id);
      if id != 0 {
        ParentObjectSurvives(db, exists', id);
      }
    }
  }

  lemma SurvivorKeepsMetadata(db: Db, db': Db, exists': Path -> bool, id: int)
    requires IsPruned(db, db', exists') && id in db'.objects.rows && db.objects.rows[id].metaData in db.metadata.rows
    ensures db.objects.rows[id].metaData in db'.metadata.rows
  {
    SurvivorsKeepMetadata(db, db', exists', id);
  }

  lemma ParentObjectSurvives(db: Db, exists': Path -> bool, id: int)
    requires IsLibrary(db) && IsPrefixClosed(exists')
    requires id in db.objects.rows && !IsGone(db, id, exists') && db.objects.rows[id].parentId in db.objects.rows
    ensures !IsGone(db, db.objects.rows[id].parentId, exists')
  {
    hide IsPrefixClosed, IndexOf, Injective, IdentOf, Shape, Survives, IsGone;
    var parentId := db.objects.rows[id].parentId;
    GoneMeansNotSurviving(db, exists', id);
    GoneMeansNotSurviving(db, exists', parentId);
    IndexHas(db, id);
    IndexHas(db, parentId);
    EntryHasParent(db, id);
    ParentSurvives(IndexOf(db), IdentOf(db, id), exists');
  }

  lemma EntryHasParent(db: Db, id: int)
    requires Linked(db) && id in db.objects.rows
    ensures EntryOf(db, id).parent == IdentOf(db, db.objects.rows[id].parentId)
  {
    hide IdentOf;
    assert LinkedRow(db, id, db.objects.rows[id]);
  }

  lemma SurvivorsStay(db: Db, db': Db, exists': Path -> bool, id: int)
    requires Linked(db) && Linked(db') && IsPruned(db, db', exists') && id in db'.objects.rows
    ensures IdentOf(db', id) == IdentOf(db, id) && EntryOf(db', id) == EntryOf(db, id)
  {
    var row := db.objects.rows[id];
    SurvivorsKeepMetadata(db, db', exists', id);
    assert LinkedRow(db', id, row) && LinkedRow(db, id, row);
    IdentStays(db, db', exists', id);
    if id != 0 {
      IdentStays(db, db', exists', row.parentId);
    }
    hide IdentOf, IsGone, IsPruned, Linked;
    assert EntryOf(db', id) == EntryOf(db, id);
  }

  lemma IdentStays(db: Db, db': Db, exists': Path -> bool, id: int)
    requires Linked(db) && Linked(db') && IsPruned(db, db', exists') && id in db'.objects.rows
    ensures IdentOf(db', id) == IdentOf(db, id)
  {
    hide IsGone, IsMetadataOfGone;
    SurvivorsKeepMetadata(db, db', exists', id);
    assert LinkedRow(db', id, db.objects.rows[id]);
  }

  lemma PrunedKeepsCore(db: Db, db': Db, exists': Path -> bool)
    requires IsLibrary(db) && IsPruned(db, db', exists') && IsPrefixClosed(exists')
    ensures Core(db')
  {
    hide IsPrefixClosed, IndexOf, IdentOf, EntryOf, Shape, IsGone, Linked;
    PrunedKeepsLinks(db, db', exists');
    forall i, j | i in db'.objects.rows && j in db'.objects.rows && IdentOf(db', i) == IdentOf(db', j)
      ensures i == j
    {
      IdentStays(db, db', exists', i);
      IdentStays(db, db', exists', j);
    }
    forall m | m in db'.metadata.rows
      ensures IsReferenced(db', m)
    {
      assert IsReferenced(db, m);
      var id :| id in db.objects.rows && db.objects.rows[id].metaData == m;
      assert id in db'.objects.rows;
    }
  }

  lemma PrunedIndex(db: Db, db': Db, exists': Path -> bool)
    requires Core(db) && Core(db') && IsPruned(db, db', exists')
    ensures IndexOf(db') == Pruned(IndexOf(db), exists')
  {
    hide IdentOf, EntryOf, IndexOf, Linked, Injective, Survives, IsGone, IsMetadataOfGone, Table.Valid;
    var idx, idx' := IndexOf(db), IndexOf(db');
    forall i | i in idx'
      ensures i in idx && idx[i] == idx'[i] && Survives(idx[i], exists')
    {
      var id := ObjectOf(db', i);
      SurvivorsStay(db, db', exists', id);
      IndexHas(db, id);
      GoneMeansNotSurviving(db, exists', id);
    }
    forall i | i in idx && Survives(idx[i], exists')
      ensures i in idx'
    {
      var id := ObjectOf(db, i);
      GoneMeansNotSurviving(db, exists', id);
      SurvivorsStay(db, db', exists', id);
      IndexHas(db', id);
    }
  }

  /** Pruning keeps the library in shape, and removes from its index exactly what
      has a path that is gone. */
  lemma PruningKeepsLibrary(db: Db, db': Db, exists': Path -> bool)
    requires IsLibrary(db) && IsPruned(db, db', exists') && IsPrefixClosed(exists')
    ensures IsLibrary(db') && IndexOf(db') == Pruned(IndexOf(db), exists')
  {
    hide IndexOf, Core, Shape, IsPruned, IsPrefixClosed;
    PrunedKeepsCore(db, db', exists');
    PrunedIndex(db, db', exists');
    PrunedKeepsShape(IndexOf(db), exists');
  }

  // ----- Parents -----

  /** The parents of an object, nearest first. */
  ghost function Ancestors(db: Db, id: int): seq<int>
    requires Linked(db) && id in db.objects.rows
    decreases id
  {
    assert LinkedRow(db, id, db.objects.rows[id]);
    if id == 0 then [] else [db.objects.rows[id].parentId] + Ancestors(db, db.objects.rows[id].parentId)
  }

  /** Following parents leads to the root, in ever smaller ids. */
  lemma {:induction false} ParentsLeadToRoot(db: Db, id: int)
    requires Linked(db) && id in db.objects.rows
    ensures var path := [id] + Ancestors(db, id);
            && path[|path| - 1] == 0
            && (forall k :: 0 <= k < |path| ==> path[k] in db.objects.rows)
            && (forall k :: 0 <= k < |path| - 1 ==> path[k + 1] == db.objects.rows[path[k]].parentId < path[k])
    decreases id
  {
    hide Table.Valid;
    assert LinkedRow(db, id, db.objects.rows[id]);
    if id != 0 {
      ParentsLeadToRoot(db, db.objects.rows[id].parentId);
    }
  }

  // ----- Albums -----

  /** There is one album object for a name and album artist. */
  lemma AlbumsAreUnique(db: Db, i: int, j: int, title: string, artist: Option<string>)
    requires IsLibrary(db) && db.IsAlbum(i, title, artist) && db.IsAlbum(j, title, artist)
    ensures i == j
  {
    hide IndexOf, Linked, IdentOf, Shape;
    AlbumsFound(db, title, artist);
  }

  /** The object of a song that names an album. */
  ghost predicate IsTaggedSong(db: Db, id: int) {
    && id in db.objects.rows && IdentOf(db, id).Node?
    && db.objects.rows[id].upnpClass != Container
    && db.ContentAt(id).Some? && db.ContentAt(id).value.album.Some?
  }

  /** Its second object, under the album. */
  ghost predicate IsCopyOf(db: Db, copy: int, id: int) {
    && copy != id && copy in db.objects.rows && id in db.objects.rows
    && db.objects.rows[copy].upnpClass == AudioItem == db.objects.rows[id].upnpClass
    && db.objects.rows[copy].metaData == db.objects.rows[id].metaData
    && db.ContentAt(id).Some? && db.ContentAt(id).value.album.Some?
    && var content := db.ContentAt(id).value;
       db.IsAlbum(db.objects.rows[copy].parentId, content.album.value, content.albumArtist)
  }

  /** A song that names an album has two objects, one of them under the album, and
      both refer to the same row of metadata. */
  lemma SongsAreListed(db: Db, id: int) returns (copy: int)
    requires IsLibrary(db) && IsTaggedSong(db, id)
    ensures IsCopyOf(db, copy, id)
  {
    hide IndexOf, Linked, Injective, Shape, PathsUnique, AllReferenced, IdentOf, EntryOf, IsPlayable;
    var i, content := IdentOf(db, id), db.ContentAt(id).value;
    IndexHas(db, id);
    EntryHasContent(db, id);
    SongInIndex(IndexOf(db), i.path);
    copy := ObjectOf(db, AlbumTrack(i.path));
    CopySharesMetadata(db, id, copy);
    EntryHasContent(db, copy);
    CopyUnderAlbum(db, copy, content);
  }

  lemma EntryHasContent(db: Db, id: int)
    requires id in db.objects.rows && db.ContentAt(id).Some?
    ensures EntryOf(db, id).content == db.ContentAt(id).value
    ensures EntryOf(db, id).upnpClass == db.objects.rows[id].upnpClass
  {
    hide IdentOf;
  }

  lemma SongInIndex(idx: Index, path: Path)
    requires Shape(idx) && Node(path) in idx && idx[Node(path)].upnpClass != Container
    requires idx[Node(path)].content.album.Some?
    ensures AlbumTrack(path) in idx
    ensures idx[AlbumTrack(path)].upnpClass == AudioItem == idx[Node(path)].upnpClass
    ensures idx[AlbumTrack(path)].parent ==
            Album(idx[Node(path)].content.album.value, idx[Node(path)].content.albumArtist)
    ensures idx[AlbumTrack(path)].content == idx[Node(path)].content && idx[Node(path)].content.filePath == Some(path)
    ensures idx[AlbumTrack(path)].parent in idx
  {
    hide BelongsUnder, IsPlayable;
    assert WellPlaced(idx, Node(path), idx[Node(path)]);
    assert WellPlaced(idx, AlbumTrack(path), idx[AlbumTrack(path)]);
  }

  lemma CopySharesMetadata(db: Db, id: int, copy: int)
    requires Core(db) && id in db.objects.rows && copy in db.objects.rows
    requires EntryOf(db, id).content == EntryOf(db, copy).content && EntryOf(db, id).content.filePath.Some?
    ensures db.objects.rows[copy].metaData == db.objects.rows[id].metaData
  {
    hide IdentOf, IndexOf, Injective, AllReferenced;
    assert LinkedRow(db, id, db.objects.rows[id]) && LinkedRow(db, copy, db.objects.rows[copy]);
    EntryHasContent(db, id);
    EntryHasContent(db, copy);
  }

  lemma CopyUnderAlbum(db: Db, copy: int, content: Content)
    requires Core(db) && copy in db.objects.rows && content.album.Some?
    requires EntryOf(db, copy).parent == Album(content.album.value, content.albumArtist)
    ensures db.IsAlbum(db.objects.rows[copy].parentId, content.album.value, content.albumArtist)
  {
    hide IdentFor, IndexOf, Injective, AllReferenced, PathsUnique;
    var parentId := db.objects.rows[copy].parentId;
    EntryHasParent(db, copy);
    assert LinkedRow(db, copy, db.objects.rows[copy]);
    hide EntryOf;
    assert parentId in db.objects.rows;
    AlbumObject(db, parentId, content.album.value, content.albumArtist);
  }
}
