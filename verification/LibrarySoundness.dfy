/** What holds of the library database after any sequence of scans, and of prunes that
    were not cut short, also when files were modified between scans and are in it more
    than once. */
module LibrarySoundness {
  import opened Basics
  import opened MusicDatabase
  import opened LibraryIndex
  import opened LibraryTree
  import opened LibraryInvariant
  import opened LibraryPruning

  // ----- The invariant -----

  ghost function PathOf(db: Db, id: int): Option<Path> {
    match db.ContentAt(id)
    case None => None
    case Some(content) => content.filePath
  }

  function DirOf(path: Option<Path>): Option<Path> {
    if path.Some? && path.value != [] then Some(path.value[..|path.value| - 1]) else None
  }

  /** An object that entries of `dir` can hang under: that of the directory, or one
      without a path. */
  ghost predicate CanHold(db: Db, id: int, dir: Option<Path>) {
    id in db.objects.rows && (PathOf(db, id) == None || PathOf(db, id) == dir)
  }

  /** References lead somewhere, an object hangs under one that can hold it, albums have
      no path, and files can be offered. */
  ghost predicate IsSoundRow(db: Db, id: int, row: ObjectRow) {
    && LinkedRow(db, id, row)
    && var path := db.metadata.rows[row.metaData].filePath;
       && path != Some([])
       && (if id == 0 then path == None else CanHold(db, row.parentId, DirOf(path)))
       && (row.upnpClass == MusicAlbum ==> path == None)
       && IsOffered(row.upnpClass, db.metadata.rows[row.metaData])
  }

  ghost predicate AlbumsDistinct(db: Db) {
    forall i, j, title, artist :: db.IsAlbum(i, title, artist) && db.IsAlbum(j, title, artist) ==> i == j
  }

  ghost predicate IsFixed(db: Db, id: int) {
    id in db.objects.rows && PathOf(db, id) == None
  }

  ghost predicate IsSound(db: Db) {
    && db.Valid()
    && (forall id :: id in db.objects.rows ==> IsSoundRow(db, id, db.objects.rows[id]))
    && AlbumsDistinct(db)
    && IsFixed(db, ALBUMS_ID) && IsFixed(db, BROWSE_FILE_SYSTEM_ID)
  }

  lemma SoundIsLinked(db: Db)
    requires IsSound(db)
    ensures Linked(db)
  {
    hide Table.Valid, AlbumsDistinct, IsFixed;
    forall id | id in db.objects.rows
      ensures LinkedRow(db, id, db.objects.rows[id])
    {
      assert IsSoundRow(db, id, db.objects.rows[id]);
    }
  }

  // ----- More rows -----

  lemma ContentStays(db: Db, db': Db, id: int)
    requires Linked(db) && Extends(db, db') && id in db.objects.rows
    ensures id in db'.objects.rows && db'.ContentAt(id) == db.ContentAt(id) && db.ContentAt(id).Some?
  {
    assert LinkedRow(db, id, db.objects.rows[id]);
  }

  lemma HoldStays(db: Db, db': Db, id: int, dir: Option<Path>)
    requires Linked(db) && Extends(db, db') && CanHold(db, id, dir)
    ensures CanHold(db', id, dir)
  {
    hide Linked, Extends;
    ContentStays(db, db', id);
  }

  /** A row that can be added: its parent can hold it, and it is no second album of
      the same name and artist. */
  ghost predicate FitsIn(db: Db, row: ObjectRow) {
    && row.metaData in db.metadata.rows
    && row.parentId in db.objects.rows
    && var content := db.metadata.rows[row.metaData];
       && content.filePath != Some([])
       && CanHold(db, row.parentId, DirOf(content.filePath))
       && IsOffered(row.upnpClass, content)
       && (row.upnpClass == MusicAlbum ==>
             content.filePath == None && forall id :: !db.IsAlbum(id, row.name, content.artist))
  }

  lemma OldRowsStaySound(db: Db, db': Db, id: int)
    requires IsSound(db) && Linked(db') && Extends(db, db') && id in db.objects.rows
    ensures IsSoundRow(db', id, db'.objects.rows[id])
  {
    SoundIsLinked(db);
    hide Linked, AlbumsDistinct, IsFixed;
    var row := db.objects.rows[id];
    assert IsSoundRow(db, id, row);
    ContentStays(db, db', id);
    if id != 0 {
      HoldStays(db, db', row.parentId, DirOf(PathOf(db, id)));
    }
    LinkedRowOf(db', id);
  }

  lemma LinkedRowOf(db: Db, id: int)
    requires Linked(db) && id in db.objects.rows
    ensures LinkedRow(db, id, db.objects.rows[id])
  {
  }

  lemma SoundMetadata(db: Db, content: Content)
    requires IsSound(db)
    ensures IsSound(db.InsertMetadata(content))
  {
    var db' := db.InsertMetadata(content);
    SoundIsLinked(db);
    InsertedMetadata(db, content);
    forall id | id in db.objects.rows
      ensures IsSoundRow(db', id, db'.objects.rows[id]) && db'.ContentAt(id) == db.ContentAt(id)
    {
      OldRowsStaySound(db, db', id);
      ContentStays(db, db', id);
    }
    SameAlbums(db, db');
  }

  lemma SameAlbums(db: Db, db': Db)
    requires AlbumsDistinct(db) && db'.objects == db.objects
    requires forall id :: id in db.objects.rows ==> db'.ContentAt(id) == db.ContentAt(id)
    ensures AlbumsDistinct(db')
  {
    hide Db.ContentAt;
    forall i, j, title, artist | db'.IsAlbum(i, title, artist) && db'.IsAlbum(j, title, artist)
      ensures i == j
    {
      AlbumInRows(db', i, title, artist);
      AlbumInRows(db', j, title, artist);
      assert db.IsAlbum(i, title, artist) && db.IsAlbum(j, title, artist);
    }
  }

  lemma AlbumInRows(db: Db, id: int, title: string, artist: Option<string>)
    requires db.IsAlbum(id, title, artist)
    ensures id in db.objects.rows
  {
  }

  lemma SoundObject(db: Db, row: ObjectRow)
    requires IsSound(db) && FitsIn(db, row)
    ensures IsSound(db.InsertObject(row)) && Extends(db, db.InsertObject(row))
    ensures db.objects.NextId() in db.InsertObject(row).objects.rows
    ensures db.InsertObject(row).ContentAt(db.objects.NextId()) == Some(db.metadata.rows[row.metaData])
  {
    var db', id := db.InsertObject(row), db.objects.NextId();
    SoundIsLinked(db);
    InsertedObject(db, row);
    forall k | k in db.objects.rows
      ensures IsSoundRow(db', k, db'.objects.rows[k]) && db'.ContentAt(k) == db.ContentAt(k)
    {
      OldRowsStaySound(db, db', k);
      ContentStays(db, db', k);
    }
    NewRowIsSound(db, db', id, row);
    OneMoreAlbum(db, db', id, row);
  }

  lemma NewRowIsSound(db: Db, db': Db, id: int, row: ObjectRow)
    requires Linked(db) && Linked(db') && Extends(db, db') && FitsIn(db, row)
    requires db'.metadata == db.metadata && id in db'.objects.rows && db'.objects.rows[id] == row
    ensures IsSoundRow(db', id, row)
  {
    LinkedRowOf(db', id);
    hide Linked, Extends;
    var content := db.metadata.rows[row.metaData];
    HoldStays(db, db', row.parentId, DirOf(content.filePath));
  }

  lemma OneMoreAlbum(db: Db, db': Db, id: int, row: ObjectRow)
    requires AlbumsDistinct(db) && FitsIn(db, row) && db'.metadata == db.metadata
    requires id !in db.objects.rows && db'.objects.rows == db.objects.rows[id := row]
    ensures AlbumsDistinct(db')
  {
    forall i, j, title, artist | db'.IsAlbum(i, title, artist) && db'.IsAlbum(j, title, artist)
      ensures i == j
    {
      assert i != id ==> db.IsAlbum(i, title, artist);
      assert j != id ==> db.IsAlbum(j, title, artist);
    }
  }

  /** An object with metadata of its own can be added: its parent can hold it, and it is
      no second album of the same name and artist. */
  ghost predicate ItemFitsIn(db: Db, item: LibraryItem, meta: LibraryMetadata) {
    && CanHold(db, item.parentId, DirOf(Some(meta.path)))
    && IsOffered(item.upnpClass, ContentOf(meta))
    && (item.upnpClass == MusicAlbum ==> meta.path == [] && forall id :: !db.IsAlbum(id, item.name, Tvin(meta.artist)))
  }

  lemma ItemKeepsSound(db: Db, item: LibraryItem, meta: LibraryMetadata)
    requires IsSound(db) && ItemFitsIn(db, item, meta)
    ensures var db', id := db.InsertMetadata(ContentOf(meta)).InsertObject(RowOf(item, db.metadata.NextId())),
            db.objects.NextId();
            && IsSound(db') && Extends(db, db')
            && id in db'.objects.rows && db'.ContentAt(id) == Some(ContentOf(meta))
  {
    hide IsSound, Linked, Extends, CanHold, ContentOf, Tvin, FitsIn;
    var db1, row := db.InsertMetadata(ContentOf(meta)), RowOf(item, db.metadata.NextId());
    SoundIsLinked(db);
    SoundMetadata(db, ContentOf(meta));
    InsertedMetadata(db, ContentOf(meta));
    PathOfContent(meta);
    ItemFitsInWithMetadata(db, db1, item, meta);
    SoundObject(db1, row);
    ExtendsTransitive(db, db1, db1.InsertObject(row));
  }

  lemma ItemFitsInWithMetadata(db: Db, db1: Db, item: LibraryItem, meta: LibraryMetadata)
    requires Linked(db) && Extends(db, db1) && ItemFitsIn(db, item, meta) && db1.objects == db.objects
    requires db1.metadata.rows == db.metadata.rows[db.metadata.NextId() := ContentOf(meta)]
    ensures FitsIn(db1, RowOf(item, db.metadata.NextId()))
  {
    hide Linked, Extends;
    PathOfContent(meta);
    HoldStays(db, db1, item.parentId, DirOf(Some(meta.path)));
    assert DirOf(ContentOf(meta).filePath) == DirOf(Some(meta.path));
    assert ContentOf(meta).artist == Tvin(meta.artist);
    forall id | db1.IsAlbum(id, item.name, Tvin(meta.artist))
      ensures db.IsAlbum(id, item.name, Tvin(meta.artist))
    {
      ContentStays(db, db1, id);
    }
  }

  lemma ExtendsTransitive(a: Db, b: Db, c: Db)
    requires Extends(a, b) && Extends(b, c)
    ensures Extends(a, c)
  {
  }

  // ----- A buffer of files -----

  /** The objects of a file can be added, whether or not its path is there already. */
  ghost predicate FileFitsIn(db: Db, items: seq<LibraryItem>, meta: LibraryMetadata) {
    && meta.path != [] && IsPlayable(ContentOf(meta))
    && forall k :: 0 <= k < |items| ==>
         items[k].upnpClass != MusicAlbum && CanHold(db, items[k].parentId, DirOf(Some(meta.path)))
  }

  lemma {:induction false} GroupKeepsSound(db: Db, items: seq<LibraryItem>, m: int, path: Path)
    requires IsSound(db) && m in db.metadata.rows && db.metadata.rows[m].filePath == Some(path) && path != []
    requires IsPlayable(db.metadata.rows[m])
    requires forall k :: 0 <= k < |items| ==>
             items[k].upnpClass != MusicAlbum && CanHold(db, items[k].parentId, DirOf(Some(path)))
    ensures var db' := InsertGroup(db, items, m); IsSound(db') && Extends(db, db') && db'.metadata == db.metadata
  {
    hide IsSound, CanHold;
    if items != [] {
      var n := |items| - 1;
      GroupKeepsSound(db, items[..n], m, path);
      var before, row := InsertGroup(db, items[..n], m), RowOf(items[n], m);
      SoundIsLinked(db);
      HoldStays(db, before, items[n].parentId, DirOf(Some(path)));
      HoldersExist(before, items[n].parentId, DirOf(Some(path)));
      SoundObject(before, row);
      ExtendsTransitive(db, before, before.InsertObject(row));
    }
  }

  lemma HoldersExist(db: Db, id: int, dir: Option<Path>)
    requires CanHold(db, id, dir)
    ensures id in db.objects.rows
  {
  }

  lemma FileKeepsSound(db: Db, items: seq<LibraryItem>, meta: LibraryMetadata)
    requires IsSound(db) && FileFitsIn(db, items, meta)
    ensures var db' := InsertGroup(db.InsertMetadata(ContentOf(meta)), items, db.metadata.NextId());
            IsSound(db') && Extends(db, db')
  {
    hide IsSound, CanHold, Linked, Extends, ContentOf, InsertGroup, Db.InsertMetadata;
    var db1 := db.InsertMetadata(ContentOf(meta));
    SoundIsLinked(db);
    SoundMetadata(db, ContentOf(meta));
    InsertedMetadata(db, ContentOf(meta));
    PathOfContent(meta);
    forall k | 0 <= k < |items|
      ensures CanHold(db1, items[k].parentId, DirOf(Some(meta.path)))
    {
      HoldStays(db, db1, items[k].parentId, DirOf(Some(meta.path)));
    }
    GroupKeepsSound(db1, items, db.metadata.NextId(), meta.path);
    ExtendsTransitive(db, db1, InsertGroup(db1, items, db.metadata.NextId()));
  }

  ghost predicate FilesFitIn(db: Db, files: seq<(seq<LibraryItem>, LibraryMetadata)>) {
    forall k :: 0 <= k < |files| ==> FileFitsIn(db, files[k].0, files[k].1)
  }

  lemma FileStillFitsIn(db: Db, db': Db, items: seq<LibraryItem>, meta: LibraryMetadata)
    requires Linked(db) && Extends(db, db') && FileFitsIn(db, items, meta)
    ensures FileFitsIn(db', items, meta)
  {
    hide Linked, Extends, CanHold;
    forall k | 0 <= k < |items|
      ensures CanHold(db', items[k].parentId, DirOf(Some(meta.path)))
    {
      HoldStays(db, db', items[k].parentId, DirOf(Some(meta.path)));
    }
  }

  lemma FilesStillFitIn(db: Db, db': Db, files: seq<(seq<LibraryItem>, LibraryMetadata)>)
    requires IsSound(db) && Extends(db, db') && FilesFitIn(db, files)
    ensures FilesFitIn(db', files)
  {
    hide IsSound, Linked, Extends, FileFitsIn;
    SoundIsLinked(db);
    forall k | 0 <= k < |files|
      ensures FileFitsIn(db', files[k].0, files[k].1)
    {
      FileStillFitsIn(db, db', files[k].0, files[k].1);
    }
  }

  lemma {:induction false} FilesKeepSound(db: Db, files: seq<(seq<LibraryItem>, LibraryMetadata)>)
    requires IsSound(db) && FilesFitIn(db, files)
    ensures IsSound(InsertAll(db, files)) && Extends(db, InsertAll(db, files))
  {
    hide IsSound, Linked, FileFitsIn, InsertGroup, Db.InsertMetadata, ContentOf;
    if files != [] {
      var n := |files| - 1;
      FilesKeepSound(db, files[..n]);
      var before := InsertAll(db, files[..n]);
      SoundIsLinked(db);
      FileStillFitsIn(db, before, files[n].0, files[n].1);
      FileKeepsSound(before, files[n].0, files[n].1);
      ExtendsTransitive(db, before, InsertAll(db, files));
    }
  }

  // ----- Libraries -----

  /** The path of a thing tells the path of what it hangs under, if that has one. */
  lemma EntriesFollow(idx: Index, i: Ident)
    requires Shape(idx) && i in idx && i != Layout(ROOT_ID)
    ensures var e := idx[i];
            && e.content.filePath != Some([])
            && e.parent in idx
            && (idx[e.parent].content.filePath == None || idx[e.parent].content.filePath == DirOf(e.content.filePath))
            && (e.upnpClass == MusicAlbum ==> e.content.filePath == None)
  {
    hide FileWellPlaced, IsPlayable, IsFolder, Includes;
    PathOfEntry(idx, i);
    ParentOfEntry(idx, i);
    PathOfEntry(idx, idx[i].parent);
  }

  lemma PathOfEntry(idx: Index, i: Ident)
    requires Shape(idx) && i in idx
    ensures idx[i].content.filePath ==
            (match i case Node(path) => Some(path) case AlbumTrack(path) => Some(path) case _ => None)
    ensures idx[i].content.filePath != Some([]) && (idx[i].upnpClass == MusicAlbum ==> i.Album?)
  {
    hide FileWellPlaced, IsFolder;
    assert WellPlaced(idx, i, idx[i]);
    assert i.AlbumTrack? ==> WellPlaced(idx, Node(i.path), idx[Node(i.path)]);
    FilesAreNoAlbums(idx, i);
  }

  lemma FilesAreNoAlbums(idx: Index, i: Ident)
    ensures i.Node? && i in idx && FileWellPlaced(idx, i.path, idx[i]) ==> idx[i].upnpClass != MusicAlbum
  {
  }

  lemma ParentOfEntry(idx: Index, i: Ident)
    requires Shape(idx) && i in idx && i != Layout(ROOT_ID)
    ensures idx[i].parent in idx
    ensures var above := idx[i].parent;
            above.Layout? || above.Album? || (i.Node? && i.path != [] && above == Node(i.path[..|i.path| - 1]))
  {
    hide FileWellPlaced;
    assert WellPlaced(idx, i, idx[i]);
  }

  lemma LibraryRowIsSound(db: Db, id: int)
    requires IsLibrary(db) && id in db.objects.rows
    ensures IsSoundRow(db, id, db.objects.rows[id])
  {
    hide IdentOf, EntryOf, IndexOf, Injective, PathsUnique, AllReferenced, Shape;
    var row := db.objects.rows[id];
    LinkedRowOf(db, id);
    EntryHasContent(db, id);
    IndexHas(db, id);
    PathOfEntry(IndexOf(db), IdentOf(db, id));
    EntryIsOffered(IndexOf(db), IdentOf(db, id));
    if id == 0 {
      LayoutObject(db, ROOT_ID);
    } else {
      RootIsZero(db, id);
      EntriesFollow(IndexOf(db), IdentOf(db, id));
      ParentInIndex(db, id);
    }
  }

  lemma ParentInIndex(db: Db, id: int)
    requires IsLibrary(db) && id in db.objects.rows && EntryOf(db, id).parent in IndexOf(db)
    ensures var parentId := db.objects.rows[id].parentId;
            && parentId in db.objects.rows
            && PathOf(db, parentId) == IndexOf(db)[EntryOf(db, id).parent].content.filePath
  {
    hide IdentOf, EntryOf, IndexOf, Injective, PathsUnique, AllReferenced, WellPlaced;
    var parentId := db.objects.rows[id].parentId;
    LinkedRowOf(db, id);
    EntryHasParent(db, id);
    if id == 0 {
      NoObject(db, -1);
      NoLayoutBelow(IndexOf(db));
    }
    LinkedRowOf(db, parentId);
    IndexHas(db, parentId);
    EntryHasContent(db, parentId);
  }

  lemma RootIsZero(db: Db, id: int)
    requires IsLibrary(db) && id in db.objects.rows && id != 0
    ensures IdentOf(db, id) != Layout(ROOT_ID)
  {
    hide IdentOf, IndexOf, Linked, PathsUnique, AllReferenced, Shape;
    LayoutObject(db, ROOT_ID);
  }

  lemma NoObject(db: Db, id: int)
    requires Linked(db) && id < 0
    ensures IdentOf(db, id) == Layout(id)
  {
    if id in db.objects.rows {
      LinkedRowOf(db, id);
    }
  }

  lemma NoLayoutBelow(idx: Index)
    requires Shape(idx)
    ensures Layout(-1) !in idx
  {
    hide BelongsUnder, FileWellPlaced;
    assert Layout(-1) in idx ==> WellPlaced(idx, Layout(-1), idx[Layout(-1)]);
  }

  lemma LibraryIsSound(db: Db)
    requires IsLibrary(db)
    ensures IsSound(db)
  {
    hide IdentOf, IndexOf, Injective, PathsUnique, AllReferenced, Shape, IsSoundRow, Table.Valid;
    forall id | id in db.objects.rows
      ensures IsSoundRow(db, id, db.objects.rows[id])
    {
      LibraryRowIsSound(db, id);
    }
    forall i, j, title, artist | db.IsAlbum(i, title, artist) && db.IsAlbum(j, title, artist)
      ensures i == j
    {
      AlbumsAreUnique(db, i, j, title, artist);
    }
    FixedContainers(db, ALBUMS_ID);
    FixedContainers(db, BROWSE_FILE_SYSTEM_ID);
  }

  lemma FixedContainers(db: Db, id: int)
    requires IsLibrary(db) && Layout(id) in LAYOUT
    ensures IsFixed(db, id)
  {
    hide IdentOf, EntryOf, IndexOf, Injective, PathsUnique, AllReferenced, Shape;
    LayoutObject(db, id);
    LinkedRowOf(db, id);
    IndexHas(db, id);
    EntryHasContent(db, id);
    LayoutHasNoPath(IndexOf(db), Layout(id));
  }

  lemma LayoutHasNoPath(idx: Index, i: Ident)
    requires Shape(idx) && i in LAYOUT
    ensures i in idx && idx[i].content.filePath == None
  {
    hide WellPlaced;
  }

  // ----- Pruning -----

  /** Pruning keeps a database sound if a directory exists whenever something in it does. */
  lemma PruningKeepsSound(db: Db, db': Db, exists': Path -> bool)
    requires IsSound(db) && IsPruned(db, db', exists') && IsPrefixClosed(exists')
    ensures IsSound(db')
  {
    hide Table.Valid, IsSoundRow, AlbumsDistinct, IsPrefixClosed, IsMetadataOfGone;
    forall id | id in db'.objects.rows
      ensures IsSoundRow(db', id, db'.objects.rows[id])
    {
      SurvivorIsSound(db, db', exists', id);
    }
    PrunedAlbums(db, db', exists');
    SurvivorsKeepMetadata(db, db', exists', ALBUMS_ID);
    SurvivorsKeepMetadata(db, db', exists', BROWSE_FILE_SYSTEM_ID);
  }

  lemma PrunedAlbums(db: Db, db': Db, exists': Path -> bool)
    requires AlbumsDistinct(db) && IsPruned(db, db', exists')
    ensures AlbumsDistinct(db')
  {
    hide IsGone, IsMetadataOfGone, Table.Valid;
    forall id, title, artist | db'.IsAlbum(id, title, artist)
      ensures db.IsAlbum(id, title, artist)
    {
      SurvivorsKeepMetadata(db, db', exists', id);
    }
  }

  lemma SurvivorIsSound(db: Db, db': Db, exists': Path -> bool, id: int)
    requires IsSound(db) && IsPruned(db, db', exists') && IsPrefixClosed(exists') && id in db'.objects.rows
    ensures IsSoundRow(db', id, db'.objects.rows[id])
  {
    hide Table.Valid, AlbumsDistinct, IsMetadataOfGone, IsFixed;
    var row := db.objects.rows[id];
    assert IsSoundRow(db, id, row);
    SurvivorsKeepMetadata(db, db', exists', id);
    if id != 0 {
      assert IsSoundRow(db, row.parentId, db.objects.rows[row.parentId]);
      ParentOfSurvivor(db, exists', id);
      SurvivorsKeepMetadata(db, db', exists', row.parentId);
    }
  }

  lemma ParentOfSurvivor(db: Db, exists': Path -> bool, id: int)
    requires id in db.objects.rows && IsSoundRow(db, id, db.objects.rows[id]) && IsPrefixClosed(exists')
    requires !IsGone(db, id, exists') && id != 0
    requires IsSoundRow(db, db.objects.rows[id].parentId, db.objects.rows[db.objects.rows[id].parentId])
    ensures !IsGone(db, db.objects.rows[id].parentId, exists')
  {
  }
}
