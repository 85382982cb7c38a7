/** The steps of a scan, as facts about the database before and after. */
module ScanSteps {
  import opened Basics
  import opened MusicDatabase
  import opened LibraryIndex
  import opened LibraryTree
  import opened LibraryInvariant
  import opened LibrarySoundness
  import opened ScanProgress

  // ----- One more object -----

  /** The object that a row id will stand for after an item was added. */
  function WithItem(db: Db, item: LibraryItem, meta: LibraryMetadata): Db {
    db.InsertMetadata(ContentOf(meta)).InsertObject(RowOf(item, db.metadata.NextId()))
  }

  lemma DirectoryTakenIn(db: Db, item: LibraryItem, v: Visit)
    requires IsLibrary(db) && NewPath(db, v.path) && v.entry.Directory? && IsPlaced(IndexOf(db), v)
    requires item.parentId in db.objects.rows && IdentOf(db, item.parentId) == v.parent && !v.parent.Album?
    requires item.name == v.entry.name && item.upnpClass == Container
    ensures var db', id := WithItem(db, item, DirectoryMetadata(v)), db.objects.NextId();
            && HasTakenIn(db, db', [v])
            && id in db'.objects.rows && IdentOf(db', id) == Node(v.path)
            && Node(v.path) in IndexOf(db') && IndexOf(db')[Node(v.path)].upnpClass == Container
  {
    hide Linked, Injective, Extends, IndexOf, PathsUnique, AllReferenced, NewPath, Shape, IdentOf, ItemIdent,
         ItemEntry, IsFolder;
    var content, db' := ContentOf(DirectoryMetadata(v)), WithItem(db, item, DirectoryMetadata(v));
    ItemUnder(db, item, content, v.path);
    NewPathNotIndexed(db, v.path, Node(v.path));
    ItemAddsEntry(db, item, content);
    FoldOne(IndexOf(db), v);
    DirectoryKeepsShape(IndexOf(db), v);
    hide DirectoryEntry, DirectoryMetadata, ContentOf;
    assert Visited(IndexOf(db), v) == IndexOf(db) + map[Node(v.path) := DirectoryEntry(v)];
    hide Fold, Visited;
    KeepsNewUnless(db, db', v);
  }

  lemma KeepsNewUnless(db: Db, db': Db, v: Visit)
    requires forall path :: path != v.path && NewPath(db, path) ==> NewPath(db', path)
    ensures KeepsNew(db, db', [v])
  {
    hide NewPath;
    forall path | IsUnvisited([v], path)
      ensures path != v.path
    {
      assert [v][0] == v;
    }
  }

  lemma AlbumTakenIn(db: Db, item: LibraryItem, v: Visit)
    requires IsLibrary(db) && HasAlbum(v) && AlbumOf(v) !in IndexOf(db)
    requires item.parentId == ALBUMS_ID && item.name == TagsOf(v).value.album && item.upnpClass == MusicAlbum
    ensures var db', id := WithItem(db, item, AlbumMetadata(TagsOf(v).value)), db.objects.NextId();
            && IsLibrary(db') && Extends(db, db') && IndexOf(db') == WithAlbum(IndexOf(db), v) && KeepsNew(db, db', [])
            && id in db'.objects.rows && IdentOf(db', id) == AlbumOf(v)
  {
    hide Linked, Injective, Extends, IndexOf, PathsUnique, AllReferenced, NewPath, Shape, IdentOf, TagsOf;
    var content := ContentOf(AlbumMetadata(TagsOf(v).value));
    LayoutObject(db, ALBUMS_ID);
    assert ItemIdent(db, item, content) == AlbumOf(v);
    assert ItemEntry(db, item, content) == AlbumEntry(v);
    hide ItemIdent, ItemEntry;
    ItemAddsEntry(db, item, content);
    AlbumKeepsShape(IndexOf(db), v);
  }

  // ----- Files -----

  lemma FileItems(db: Db, items: seq<LibraryItem>, v: Visit)
    requires IsLibrary(db) && IsIndexed(v) && v.path != [] && items != []
    requires forall k :: 0 <= k < |items| ==>
               items[k].parentId in db.objects.rows && items[k].name == v.entry.name
               && Some(items[k].upnpClass) == ClassOfFile(v.entry.name)
    requires |items| == if HasAlbum(v) then 2 else 1
    requires IdentOf(db, items[|items| - 1].parentId) == v.parent && !v.parent.Album?
    requires HasAlbum(v) ==> IdentOf(db, items[0].parentId) == AlbumOf(v)
    ensures FileFits(db, items, FileMetadata(v))
    ensures GroupIndex(db, items, ContentOf(FileMetadata(v))) == FileIndex(v)
  {
    hide Core, IndexOf, Shape, IdentOf, ItemIdent, ItemEntry, ClassOfFile, MimeTypeOfFile, HasAlbum;
    var content, n := ContentOf(FileMetadata(v)), |items| - 1;
    FileIsNoAlbum(v);
    assert content.filePath == Some(v.path);
    assert Linked(db) by { CoreIsLinked(db); }
    hide Linked;
    ItemUnder(db, items[n], content, v.path);
    if HasAlbum(v) {
      ItemUnder(db, items[0], content, v.path);
      GroupOfTwo(db, items, content);
    } else {
      GroupOfOne(db, items, content);
    }
  }

  lemma CoreIsLinked(db: Db)
    requires IsLibrary(db)
    ensures Linked(db)
  {
    hide Linked, IndexOf, Shape, Injective, PathsUnique, AllReferenced;
  }

  lemma FileIsNoAlbum(v: Visit)
    requires IsIndexed(v)
    ensures ClassOfFile(v.entry.name) != Some(MusicAlbum) && ClassOfFile(v.entry.name) != Some(Container)
    ensures HasAlbum(v) ==> ClassOfFile(v.entry.name) == Some(AudioItem)
  {
  }

  lemma GroupOfOne(db: Db, items: seq<LibraryItem>, content: Content)
    requires |items| == 1
    ensures GroupIndex(db, items, content) == map[ItemIdent(db, items[0], content) := ItemEntry(db, items[0], content)]
  {
    hide ItemIdent, ItemEntry;
    assert items[..0] == [];
  }

  lemma GroupOfTwo(db: Db, items: seq<LibraryItem>, content: Content)
    requires |items| == 2
    ensures GroupIndex(db, items, content) ==
            map[ItemIdent(db, items[0], content) := ItemEntry(db, items[0], content)]
            + map[ItemIdent(db, items[1], content) := ItemEntry(db, items[1], content)]
  {
    hide ItemIdent, ItemEntry;
    assert items[..1] == [items[0]];
    GroupOfOne(db, items[..1], content);
  }

  lemma FileGoesToBuffer(db: Db, items: seq<LibraryItem>, v: Visit)
    requires IsLibrary(db) && IsIndexed(v) && IsPlaced(IndexOf(db), v) && NewPath(db, v.path)
    requires HasAlbum(v) ==> AlbumOf(v) in IndexOf(db)
    requires FileFits(db, items, FileMetadata(v))
    requires GroupIndex(db, items, ContentOf(FileMetadata(v))) == FileIndex(v)
    ensures IsBufferedFile(db, items, FileMetadata(v), v)
  {
    hide Core, IndexOf, Shape, NewPath, FileFits, GroupIndex, FileIndex, ClassOfFile, HasAlbum, MimeTypeOfFile;
    CoreIsLinked(db);
    NewPathNotIndexed(db, v.path, Node(v.path));
    NewPathNotIndexed(db, v.path, AlbumTrack(v.path));
  }

  // ----- The layout -----

  ghost function LayoutItem(id: nat): LibraryItem
    requires id < 4
  {
    var e := LAYOUT[Layout(id)];
    LibraryItem(id, e.parent.id, 0, e.name, e.upnpClass)
  }

  /** The first `n` containers of the layout are there, and nothing else. */
  ghost predicate HasLayout(db: Db, n: nat)
    requires n <= 4
  {
    && db.Valid()
    && (forall id :: id in db.objects.rows <==> 0 <= id < n)
    && (forall id :: id in db.objects.rows ==> db.objects.rows[id] == RowOf(LayoutItem(id), id + 1))
    && (forall m :: m in db.metadata.rows <==> 1 <= m < n + 1)
    && (forall m :: m in db.metadata.rows ==> db.metadata.rows[m] == ContentOf(LayoutMetadata(LayoutItem(m - 1).name)))
  }

  lemma EmptyHasLayout()
    ensures HasLayout(EMPTY, 0)
  {
  }

  /** The id of the next row follows from the ids that are taken. */
  lemma NextIdIs<R>(t: Table<R>, n: nat)
    requires t.Valid() && forall m :: m in t.rows <==> 1 <= m < n + 1
    ensures t.NextId() == n + 1
  {
    if n > 0 {
      InsertKeepsValid(t, t.rows[1]);
      assert n in t.rows && t.ids[|t.ids| - 1] in t.ids;
    } else {
      assert forall k :: 0 <= k < |t.ids| ==> t.ids[k] in t.ids;
    }
  }

  lemma NextLayoutRow(db: Db, item: LibraryItem, n: nat)
    requires n < 4 && HasLayout(db, n) && item == LayoutItem(n)
    ensures item.objectId == n ==>
              n !in db.objects.rows
              && HasLayout(Db(db.objects.InsertWithId(n, RowOf(item, db.metadata.NextId())),
                              db.metadata.Insert(ContentOf(LayoutMetadata(item.name)))), n + 1)
  {
    hide Table.Valid, Filter, ContentOf, RowOf, LayoutItem;
    NextIdIs(db.metadata, n);
    InsertWithIdKeepsValid(db.objects, n, RowOf(item, n + 1));
    InsertKeepsValid(db.metadata, ContentOf(LayoutMetadata(item.name)));
  }

  lemma SomeLayout() returns (db: Db)
    ensures HasLayout(db, 4)
  {
    hide HasLayout, LayoutItem;
    EmptyHasLayout();
    db := EMPTY;
    for n := 0 to 4
      invariant HasLayout(db, n)
    {
      var item := LayoutItem(n);
      NextLayoutRow(db, item, n);
      LayoutItemHasId(n);
      db := Db(db.objects.InsertWithId(n, RowOf(item, db.metadata.NextId())),
               db.metadata.Insert(ContentOf(LayoutMetadata(item.name))));
    }
  }

  lemma LayoutItemHasId(id: nat)
    requires id < 4
    ensures LayoutItem(id).objectId == id
  {
  }

  lemma LayoutIsLibrary(db: Db)
    requires HasLayout(db, 4)
    ensures IsLibrary(db) && IndexOf(db) == LAYOUT
    ensures forall path :: NewPath(db, path)
  {
    hide Linked, Injective, IndexOf, PathsUnique, AllReferenced, HasLayout, WellPlaced;
    LayoutIsLinked(db);
    LayoutIndex(db);
    LayoutMetadataIsPlain(db);
    LayoutShape();
  }

  lemma LayoutIsLinked(db: Db)
    requires HasLayout(db, 4)
    ensures Linked(db)
  {
    hide Table.Valid, ContentOf;
    forall id | id in db.objects.rows
      ensures LinkedRow(db, id, db.objects.rows[id])
    {
    }
  }

  lemma LayoutContentIsPlain(name: string)
    ensures ContentOf(LayoutMetadata(name)).filePath == None
  {
  }

  lemma LayoutMetadataIsPlain(db: Db)
    requires HasLayout(db, 4)
    ensures (forall path :: NewPath(db, path)) && PathsUnique(db) && AllReferenced(db)
  {
    hide Table.Valid, ContentOf, LayoutItem, LayoutMetadata;
    forall m | m in db.metadata.rows
      ensures db.metadata.rows[m].filePath == None && IsReferenced(db, m)
    {
      LayoutContentIsPlain(LayoutItem(m - 1).name);
      assert db.objects.rows[m - 1].metaData == m;
    }
  }

  lemma LayoutIdent(db: Db, id: int)
    requires HasLayout(db, 4) && id in db.objects.rows
    ensures IdentOf(db, id) == Layout(id) && Layout(id) in LAYOUT && EntryOf(db, id) == LAYOUT[Layout(id)]
  {
    hide Table.Valid, ContentOf, LayoutMetadata;
    LayoutContentIsPlain(LayoutItem(id).name);
    LayoutContentIsPlain(LayoutItem(if id == 0 then 0 else LayoutItem(id).parentId).name);
    assert db.objects.rows[id] == RowOf(LayoutItem(id), id + 1);
  }

  lemma LayoutIndex(db: Db)
    requires HasLayout(db, 4)
    ensures Injective(db) && IndexOf(db) == LAYOUT
  {
    hide IdentOf, EntryOf, Table.Valid, ContentOf, LayoutMetadata;
    forall id | id in db.objects.rows
      ensures IdentOf(db, id) == Layout(id) && Layout(id) in LAYOUT && EntryOf(db, id) == LAYOUT[Layout(id)]
    {
      LayoutIdent(db, id);
    }
    assert forall i :: i in LAYOUT ==> i == Layout(i.id) && i.id in db.objects.rows;
    assert forall i :: i in LAYOUT ==> i in IndexOf(db);
  }

  lemma LayoutShape()
    ensures Shape(LAYOUT)
  {
    hide ContentOf, LayoutMetadata;
  }

  lemma NothingToFlush(db: Db)
    ensures InsertAll(db, []) == db
  {
  }

  lemma NothingSeen(dir: Path, parent: Ident, entries: seq<FileEntry>)
    ensures Visits(dir, parent, entries[..0]) == [] && CountFiles([]) == 0
  {
  }

  lemma CountFilesOne(v: Visit)
    ensures CountFiles([v]) == if v.entry.RegularFile? then 1 else 0
  {
    assert [v][..0] == [];
  }

  lemma SettledStep(start: Db, db: Db, files: Buffer, waiting: seq<Visit>, seen: seq<Visit>, v: Visit)
    requires Progress(start, db, files, waiting, seen) && PathsDistinct(seen + [v]) && IsSettled(IndexOf(db), v)
    ensures Progress(start, db, files, waiting, seen + [v])
  {
    hide IsLibrary, IndexOf, IsSettled, IsBuffer, Pending, Fold, KeepsNew, PathsDistinct;
    SettledIsTakenIn(db, v);
    ProgressInDatabase(start, db, db, files, waiting, seen, [v]);
  }

  /** An entry that is neither a directory nor a file is passed over. */
  lemma OtherSkipped(start: Db, db: Db, files: Buffer, waiting: seq<Visit>, seen: seq<Visit>, v: Visit)
    requires Progress(start, db, files, waiting, seen) && PathsDistinct(seen + [v]) && v.entry.OtherEntry?
    ensures Progress(start, db, files, waiting, seen + [v])
  {
    hide IsLibrary, IndexOf, Progress, PathsDistinct;
    SettledStep(start, db, files, waiting, seen, v);
  }

  /** What the status of a file says about the index. */
  lemma StatusTells(db: Db, v: Visit, status: ItemStatus)
    requires IsLibrary(db) && IsIndexed(v) && db.HasStatus(v.path, v.entry.modifyTime, status)
    ensures status == if Node(v.path) !in IndexOf(db) then DoesntExist
                      else if IndexOf(db)[Node(v.path)].content.modifiedTime < v.entry.modifyTime then NeedsUpdate
                      else UpToDate
    ensures status == DoesntExist <==> NewPath(db, v.path)
  {
    hide IsLibrary, IndexOf, ClassOfFile;
    NewPathsAreNotIndexed(db, v.path);
    if status == DoesntExist {
      assert forall m :: m in db.metadata.rows && db.metadata.rows[m].filePath == Some(v.path) ==>
          db.IsRowOf(m, v.path);
    } else {
      var m :| db.IsFirstRow(v.path, m);
      MetadataOfPath(db, m, v.path);
    }
  }

  lemma NoAlbum(db: Db, v: Visit)
    requires !HasAlbum(v)
    ensures WithAlbum(IndexOf(db), v) == IndexOf(db)
  {
  }

  lemma NothingNew(db: Db)
    ensures Extends(db, db) && KeepsNew(db, db, [])
  {
    hide NewPath;
  }

  lemma ParentStays(db: Db, db': Db, parentId: int, v: Visit)
    requires IsLibrary(db) && IsLibrary(db') && Extends(db, db') && KeepsNew(db, db', [])
    requires IndexOf(db') == WithAlbum(IndexOf(db), v)
    requires parentId in db.objects.rows && IsPlaced(IndexOf(db), v) && NewPath(db, v.path)
    ensures parentId in db'.objects.rows && IdentOf(db', parentId) == IdentOf(db, parentId)
    ensures IsPlaced(IndexOf(db'), v) && v.path != [] && NewPath(db', v.path)
    ensures HasAlbum(v) ==> AlbumOf(v) in IndexOf(db')
  {
    hide IndexOf, Shape, Injective, PathsUnique, AllReferenced, NewPath, IdentOf, IsFolder, HasAlbum, AlbumEntry;
    IdentsStay(db, db');
    PlacedStays(IndexOf(db), IndexOf(db'), v);
    NothingVisited();
  }

  lemma MetadataOfVisit(v: Visit)
    requires v.entry.RegularFile?
    ensures FileMetadata(v) ==
            MetadataOfFile(v.path, v.entry, if ClassOfFile(v.entry.name) == Some(AudioItem) then v.entry.tags else None)
  {
    hide ClassOfFile;
  }

  // ----- Directories -----

  /** The object that the entries of `dir` hang under. */
  ghost predicate IsObjectOf(db: Db, id: int, dir: Path, parent: Ident) {
    && id in db.objects.rows
    && IdentOf(db, id) == parent
    && IsFolder(IndexOf(db), parent)
    && (parent == Layout(BROWSE_FILE_SYSTEM_ID) || parent == Node(dir))
  }

  lemma ObjectStays(db: Db, db': Db, id: int, dir: Path, parent: Ident)
    requires IsLibrary(db) && IsLibrary(db') && Extends(db, db') && IsObjectOf(db, id, dir, parent)
    ensures IsObjectOf(db', id, dir, parent)
  {
    hide IndexOf, Shape, Injective, PathsUnique, AllReferenced, IdentOf;
    IdentsStay(db, db');
    ExtendsIncludes(db, db');
  }

  lemma PrefixDistinct(vs: seq<Visit>, all: seq<Visit>)
    requires vs <= all && PathsDistinct(all)
    ensures PathsDistinct(vs)
  {
    forall j, k | 0 <= j < k < |vs|
      ensures vs[j].path != vs[k].path
    {
      assert vs[j] == all[j] && vs[k] == all[k];
    }
  }

  lemma PrefixUnmodified(idx: Index, vs: seq<Visit>, all: seq<Visit>)
    requires vs <= all && IsUnmodified(idx, all)
    ensures IsUnmodified(idx, vs)
  {
    hide Agrees;
    forall k | 0 <= k < |vs| && Node(vs[k].path) in idx
      ensures Agrees(idx[Node(vs[k].path)], vs[k])
    {
      assert vs[k] == all[k];
    }
  }

  /** What is still to be visited has not been modified either. */
  lemma RestUnmodified(start: Db, db: Db, files: Buffer, waiting: seq<Visit>, seen: seq<Visit>, vs: seq<Visit>)
    requires Progress(start, db, files, waiting, seen) && IsUnmodified(IndexOf(start), seen + vs)
    requires PathsDistinct(seen + vs)
    ensures IsUnmodified(IndexOf(db), vs)
  {
    hide IsLibrary, IndexOf, Agrees, IsBuffer, Fold, Pending, KeepsNew, IsUnvisited;
    PendingIsAbsent(db, files, waiting);
    forall k | 0 <= k < |vs| && Node(vs[k].path) in IndexOf(db)
      ensures Agrees(IndexOf(db)[Node(vs[k].path)], vs[k])
    {
      assert (seen + vs)[|seen| + k] == vs[k];
      forall j | 0 <= j < |seen|
        ensures seen[j].path != vs[k].path
      {
        assert (seen + vs)[j] == seen[j];
      }
      FoldElsewhere(IndexOf(start), seen, vs[k].path);
    }
  }

  /** The traversal continues with the next entry. */
  lemma NextVisits(dir: Path, parent: Ident, entries: seq<FileEntry>, i: nat)
    requires i < |entries|
    ensures Visits(dir, parent, entries[..i + 1]) ==
            Visits(dir, parent, entries[..i]) + VisitsOf(dir, parent, entries[i])
    ensures Visits(dir, parent, entries[..i + 1]) <= Visits(dir, parent, entries)
  {
    assert entries[..i + 1][..i] == entries[..i];
    VisitsPrefix(dir, parent, entries, i + 1);
  }

  ghost function EntryVisit(dir: Path, parent: Ident, entry: FileEntry): Visit {
    Visit(dir + [entry.name], parent, entry)
  }

  lemma SuffixDistinct(seen: seq<Visit>, vs: seq<Visit>)
    requires PathsDistinct(seen + vs)
    ensures PathsDistinct(vs)
  {
    forall j, k | 0 <= j < k < |vs|
      ensures vs[j].path != vs[k].path
    {
      assert (seen + vs)[|seen| + j] == vs[j] && (seen + vs)[|seen| + k] == vs[k];
    }
  }

  /** The files among visited entries. */
  function CountFiles(vs: seq<Visit>): nat {
    if vs == [] then 0 else CountFiles(vs[..|vs| - 1]) + (if vs[|vs| - 1].entry.RegularFile? then 1 else 0)
  }

  lemma {:induction false} CountFilesConcat(vs: seq<Visit>, ws: seq<Visit>)
    ensures CountFiles(vs + ws) == CountFiles(vs) + CountFiles(ws)
  {
    if ws == [] {
      assert vs + ws == vs;
    } else {
      var n := |ws| - 1;
      CountFilesConcat(vs, ws[..n]);
      assert (vs + ws)[..|vs| + n] == vs + ws[..n];
    }
  }

  // ----- A whole scan -----

  lemma RowsHaveIds<R>(t: Table<R>, id: int)
    requires t.Valid() && id in t.rows
    ensures |t.ids| > 0
  {
    assert id in t.ids;
  }

  lemma LayoutUnmodified(vs: seq<Visit>)
    ensures IsUnmodified(LAYOUT, vs)
  {
    hide Agrees;
  }

  lemma BrowseObject(db: Db, path: Path)
    requires IsLibrary(db)
    ensures IsObjectOf(db, BROWSE_FILE_SYSTEM_ID, path, Layout(BROWSE_FILE_SYSTEM_ID))
  {
    hide IndexOf, Core, WellPlaced, IdentOf;
    LayoutObject(db, BROWSE_FILE_SYSTEM_ID);
  }

  // ----- Steps on any sound database -----

  /** A visit of a library that was not modified, below the object it belongs under. */
  ghost predicate CanTakeIn(db: Db, v: Visit, parentId: int) {
    && IsLibrary(db)
    && parentId in db.objects.rows && IdentOf(db, parentId) == v.parent && !v.parent.Album?
    && IsPlaced(IndexOf(db), v)
    && IsUnmodified(IndexOf(db), [v])
  }

  /** What it means that `id` is the object of a directory that was visited. */
  ghost predicate IsDirectoryTakenIn(db: Db, db': Db, v: Visit, id: int) {
    && HasTakenIn(db, db', [v])
    && id in db'.objects.rows && IdentOf(db', id) == Node(v.path)
    && IsFolder(IndexOf(db'), Node(v.path))
  }

  lemma DirectoryFound(db: Db, v: Visit, parentId: int, id: int)
    requires IsSound(db) && v.entry.Directory? && db.HasPath(id, v.path)
    ensures CanHold(db, id, Some(v.path)) && Extends(db, db)
    ensures CanTakeIn(db, v, parentId) ==> IsDirectoryTakenIn(db, db, v, id)
  {
    hide IsLibrary, IndexOf, IdentOf, IsPlaced, NewPath, Fold, HasTakenIn;
    if CanTakeIn(db, v, parentId) {
      PathsFound(db, v.path);
      PathObjectInRows(db, id, v.path);
      assert [v][0] == v;
      SettledIsTakenIn(db, v);
    }
  }

  lemma DirectoryNew(db: Db, item: LibraryItem, v: Visit)
    requires IsSound(db) && v.entry.Directory? && v.path != [] && forall id :: !db.HasPath(id, v.path)
    requires CanHold(db, item.parentId, DirOf(Some(v.path)))
    requires item.name == v.entry.name && item.upnpClass == Container
    ensures var db', id := WithItem(db, item, DirectoryMetadata(v)), db.objects.NextId();
            && IsSound(db') && Extends(db, db') && CanHold(db', id, Some(v.path))
            && (CanTakeIn(db, v, item.parentId) ==> IsDirectoryTakenIn(db, db', v, id))
  {
    hide IsLibrary, IndexOf, IdentOf, IsPlaced, NewPath, Fold, HasTakenIn, IsSound, Extends, ContentOf, Db.HasPath,
         Db.InsertObject, Db.InsertMetadata, RowOf;
    ItemKeepsSound(db, item, DirectoryMetadata(v));
    PathOfContent(DirectoryMetadata(v));
    if CanTakeIn(db, v, item.parentId) {
      PathsFound(db, v.path);
      NewPathsAreNotIndexed(db, v.path);
      DirectoryTakenIn(db, item, v);
    }
  }

  /** What it means that `id` is the album of a song. */
  ghost predicate IsAlbumTakenIn(db: Db, db': Db, v: Visit, id: int)
    requires HasAlbum(v)
  {
    && IsLibrary(db') && Extends(db, db') && IndexOf(db') == WithAlbum(IndexOf(db), v) && KeepsNew(db, db', [])
    && id in db'.objects.rows && IdentOf(db', id) == AlbumOf(v)
  }

  lemma AlbumFound(db: Db, v: Visit, id: int)
    requires IsSound(db) && HasAlbum(v) && db.IsAlbum(id, TagsOf(v).value.album, Tvin(TagsOf(v).value.albumArtist))
    ensures IsFixed(db, id) && Extends(db, db)
    ensures IsLibrary(db) ==> IsAlbumTakenIn(db, db, v, id)
  {
    hide IsLibrary, IndexOf, IdentOf, NewPath, TagsOf, Table.Valid, AlbumsDistinct;
    assert IsSoundRow(db, id, db.objects.rows[id]);
    if IsLibrary(db) {
      AlbumsFound(db, TagsOf(v).value.album, Tvin(TagsOf(v).value.albumArtist));
      NothingNew(db);
    }
  }

  lemma AlbumNew(db: Db, item: LibraryItem, v: Visit)
    requires IsSound(db) && HasAlbum(v)
    requires forall id :: !db.IsAlbum(id, TagsOf(v).value.album, Tvin(TagsOf(v).value.albumArtist))
    requires item.parentId == ALBUMS_ID && item.name == TagsOf(v).value.album && item.upnpClass == MusicAlbum
    ensures var db', id := WithItem(db, item, AlbumMetadata(TagsOf(v).value)), db.objects.NextId();
            && IsSound(db') && Extends(db, db') && IsFixed(db', id)
            && (IsLibrary(db) ==> IsAlbumTakenIn(db, db', v, id))
  {
    hide IsLibrary, IndexOf, IdentOf, NewPath, Extends, ContentOf, Db.IsAlbum, Db.InsertObject, Db.InsertMetadata,
         RowOf, Tvin, Table.Valid, AlbumsDistinct, IsSoundRow, TagsOf;
    ItemKeepsSound(db, item, AlbumMetadata(TagsOf(v).value));
    PathOfContent(AlbumMetadata(TagsOf(v).value));
    if IsLibrary(db) {
      AlbumsFound(db, TagsOf(v).value.album, Tvin(TagsOf(v).value.albumArtist));
      AlbumTakenIn(db, item, v);
    }
  }

  /** The objects of a file: a copy for the album, if the song names one, and its own. */
  ghost predicate AreItemsOf(items: seq<LibraryItem>, v: Visit, parentId: int) {
    && |items| == (if HasAlbum(v) then 2 else 1)
    && items[|items| - 1].parentId == parentId
    && forall k :: 0 <= k < |items| ==>
         items[k].name == v.entry.name && Some(items[k].upnpClass) == ClassOfFile(v.entry.name)
  }

  lemma FileOnAnyDatabase(db: Db, db': Db, files: Buffer, items: seq<LibraryItem>, v: Visit, parentId: int)
    requires IsSound(db) && Extends(db, db') && FilesFitIn(db, files)
    requires IsIndexed(v) && v.path != [] && CanHold(db, parentId, DirOf(Some(v.path)))
    requires AreItemsOf(items, v, parentId)
    requires HasAlbum(v) ==> IsFixed(db', items[0].parentId)
    ensures FilesFitIn(db', files + [(items, FileMetadata(v))])
  {
    hide IsSound, Linked, Extends, HasAlbum, ClassOfFile, MimeTypeOfFile;
    SoundIsLinked(db);
    FilesStillFitIn(db, db', files);
    HoldStays(db, db', parentId, DirOf(Some(v.path)));
    FileIsNoAlbum(v);
    PathOfMetadata(v);
    FilesPlayable(v);
    assert IsPlayable(ContentOf(FileMetadata(v)));
    hide FileMetadata, ContentOf, IsPlayable;
    assert FileFitsIn(db', items, FileMetadata(v));
  }

  lemma PathOfMetadata(v: Visit)
    requires v.entry.RegularFile?
    ensures FileMetadata(v).path == v.path
  {
    hide MimeTypeOfFile, ClassOfFile;
  }

  /** A new file of a library. */
  lemma FileInLibrary(start: Db, db: Db, db': Db, files: Buffer, waiting: seq<Visit>, seen: seq<Visit>,
                      items: seq<LibraryItem>, v: Visit, parentId: int)
    requires CanTakeIn(db, v, parentId) && Progress(start, db, files, waiting, seen) && PathsDistinct(seen + [v])
    requires NewPath(db, v.path) && IsIndexed(v) && v.path != [] && AreItemsOf(items, v, parentId)
    requires if HasAlbum(v) then IsAlbumTakenIn(db, db', v, items[0].parentId) else db' == db
    ensures Progress(start, db', files + [(items, FileMetadata(v))], waiting + [v], seen + [v])
  {
    hide IsLibrary, IndexOf, IdentOf, Extends, NewPath, KeepsNew, Fold, IsPlaced, IsBuffer, ClassOfFile, FileMetadata,
         FileIndex, WithAlbum, Pending, IsUnmodified, IsBufferedFile, GroupIndex, FileFits, PathsDistinct, Progress,
         HasAlbum;
    if !HasAlbum(v) {
      NothingNew(db);
      NoAlbum(db, v);
    }
    ParentStays(db, db', parentId, v);
    FileItems(db', items, v);
    FileGoesToBuffer(db', items, v);
    ProgressInBuffer(start, db, db', files, waiting, seen, items, FileMetadata(v), v);
  }

  /** A file that brings nothing new. */
  lemma FileSkipped(start: Db, db: Db, files: Buffer, waiting: seq<Visit>, seen: seq<Visit>, v: Visit)
    requires Progress(start, db, files, waiting, seen) && PathsDistinct(seen + [v]) && v.entry.RegularFile?
    requires IsIndexed(v) ==> db.HasStatus(v.path, v.entry.modifyTime, UpToDate)
    ensures Progress(start, db, files, waiting, seen + [v])
  {
    hide IsLibrary, IndexOf, IsBuffer, Pending, Fold, KeepsNew, PathsDistinct, ClassOfFile;
    if IsIndexed(v) {
      StatusTells(db, v, UpToDate);
    }
    SettledStep(start, db, files, waiting, seen, v);
  }

  /** The buffer has one more file, with this metadata. */
  ghost predicate HasOneMore(files: Buffer, files': Buffer, meta: LibraryMetadata) {
    |files'| == |files| + 1 && files'[..|files|] == files && files'[|files|].1 == meta
  }

  // ----- Scans on any sound database -----

  /** A library and a part of the tree that was not modified since it was indexed. */
  ghost predicate CanFollow(db: Db, vs: seq<Visit>) {
    IsLibrary(db) && PathsDistinct(vs) && IsUnmodified(IndexOf(db), vs)
  }

  lemma EmptyOrSound(db: Db)
    requires db == EMPTY || IsSound(db)
    ensures |db.objects.ids| == 0 <==> db == EMPTY
  {
    hide IsSoundRow, AlbumsDistinct, Table.Valid;
    if db != EMPTY {
      RowsHaveIds(db.objects, ALBUMS_ID);
    }
  }

  lemma SoundIsValid(db: Db)
    requires IsSound(db)
    ensures db.Valid()
  {
  }

  /** An unmodified file that is not up to date is new. */
  lemma UnmodifiedFileIsNew(db: Db, v: Visit, parentId: int, status: ItemStatus)
    requires CanTakeIn(db, v, parentId) && IsIndexed(v)
    requires db.HasStatus(v.path, v.entry.modifyTime, status) && status != UpToDate
    ensures NewPath(db, v.path)
  {
    hide IsLibrary, IndexOf, IdentOf, IsPlaced, NewPath, Db.HasStatus, ClassOfFile;
    StatusTells(db, v, status);
    assert [v][0] == v;
  }

  lemma LibraryOfVisit(db: Db, v: Visit, parentId: int)
    requires CanTakeIn(db, v, parentId)
    ensures IsLibrary(db)
  {
    hide IsLibrary;
  }

  lemma ScanStarts(db: Db, dir: Path, parent: Ident, entries: seq<FileEntry>)
    ensures Visits(dir, parent, entries[..0]) == [] && CountFiles([]) == 0
    ensures Extends(db, db) && FilesFitIn(db, [])
    ensures CanFollow(db, Visits(dir, parent, entries)) ==> Progress(db, db, [], [], [])
  {
    hide IsLibrary, IndexOf, Progress;
    NothingNew(db);
    NothingSeen(dir, parent, entries);
    if IsLibrary(db) {
      ProgressStarts(db);
    }
  }

  lemma BufferStillFits(start: Db, db: Db, db': Db, files: Buffer)
    requires IsSound(db) && Extends(start, db) && Extends(db, db') && FilesFitIn(db, files)
    ensures FilesFitIn(db', files) && Extends(start, db')
  {
    hide IsSound, FilesFitIn, Extends;
    FilesStillFitIn(db, db', files);
    ExtendsTransitive(start, db, db');
  }

  lemma BrowseCanHold(db: Db, path: Path)
    requires IsSound(db)
    ensures CanHold(db, BROWSE_FILE_SYSTEM_ID, Some(path))
  {
    hide IsSoundRow, AlbumsDistinct, Table.Valid;
  }

  lemma HolderStays(start: Db, db: Db, parentId: int, dir: Path)
    requires IsSound(start) && Extends(start, db) && CanHold(start, parentId, Some(dir))
    ensures CanHold(db, parentId, Some(dir))
  {
    hide IsSound, Linked, Extends, CanHold;
    SoundIsLinked(start);
    HoldStays(start, db, parentId, Some(dir));
  }

  lemma HolderOfEntry(db: Db, dir: Path, entry: FileEntry, parentId: int)
    requires CanHold(db, parentId, Some(dir))
    ensures CanHold(db, parentId, DirOf(Some(dir + [entry.name])))
  {
    assert (dir + [entry.name])[..|dir|] == dir;
  }

  /** Before an entry of a library's directory is visited. */
  lemma EntryReady(start: Db, db: Db, files: Buffer, waiting: seq<Visit>, dir: Path, parent: Ident,
                   entries: seq<FileEntry>, i: nat, parentId: int)
    requires i < |entries| && Progress(start, db, files, waiting, Visits(dir, parent, entries[..i]))
    requires CanFollow(start, Visits(dir, parent, entries)) && IsObjectOf(start, parentId, dir, parent)
    ensures CanTakeIn(db, EntryVisit(dir, parent, entries[i]), parentId)
    ensures CanFollow(db, VisitsOf(dir, parent, entries[i]))
    ensures PathsDistinct(Visits(dir, parent, entries[..i]) + [EntryVisit(dir, parent, entries[i])])
  {
    hide IsLibrary, IndexOf, IsBuffer, Fold, Pending, KeepsNew, Visits, PathsDistinct, IsUnmodified, IdentOf;
    var seen, next := Visits(dir, parent, entries[..i]), VisitsOf(dir, parent, entries[i]);
    var all, v := Visits(dir, parent, entries), EntryVisit(dir, parent, entries[i]);
    SeenSoFar(dir, parent, entries, i, next);
    PrefixUnmodified(IndexOf(start), seen + next, all);
    RestUnmodified(start, db, files, waiting, seen, next);
    SuffixDistinct(seen, next);
    PrefixUnmodified(IndexOf(db), [v], next);
    SeenSoFar(dir, parent, entries, i, [v]);
    ObjectStays(start, db, parentId, dir, parent);
    assert (dir + [entries[i].name])[..|dir|] == dir;
  }

  /** The next entry, or a part of what is below it, continues the traversal. */
  lemma NextSeen(dir: Path, parent: Ident, entries: seq<FileEntry>, i: nat, next: seq<Visit>)
    requires i < |entries| && next <= VisitsOf(dir, parent, entries[i])
    ensures Visits(dir, parent, entries[..i]) + next <= Visits(dir, parent, entries)
    ensures next == VisitsOf(dir, parent, entries[i]) ==>
              Visits(dir, parent, entries[..i]) + next == Visits(dir, parent, entries[..i + 1])
  {
    hide Visits;
    NextVisits(dir, parent, entries, i);
  }

  lemma SeenSoFar(dir: Path, parent: Ident, entries: seq<FileEntry>, i: nat, next: seq<Visit>)
    requires i < |entries| && next <= VisitsOf(dir, parent, entries[i]) && PathsDistinct(Visits(dir, parent, entries))
    ensures Visits(dir, parent, entries[..i]) + next <= Visits(dir, parent, entries)
    ensures PathsDistinct(Visits(dir, parent, entries[..i]) + next)
  {
    hide Visits, PathsDistinct;
    NextSeen(dir, parent, entries, i, next);
    PrefixDistinct(Visits(dir, parent, entries[..i]) + next, Visits(dir, parent, entries));
  }

  /** The object of a directory is there, its entries come next. */
  lemma DirectoryEntered(db: Db, entered: Db, dir: Path, parent: Ident, entry: FileEntry, objectId: int)
    requires entry.Directory? && CanFollow(db, VisitsOf(dir, parent, entry))
    requires IsDirectoryTakenIn(db, entered, EntryVisit(dir, parent, entry), objectId)
    ensures var path := dir + [entry.name];
            CanFollow(entered, Visits(path, Node(path), entry.entries))
                && IsObjectOf(entered, objectId, path, Node(path))
    ensures HasTakenIn(db, entered, [EntryVisit(dir, parent, entry)])
  {
    hide IsLibrary, IndexOf, Fold, KeepsNew, Visits, IsFolder, IdentOf, Agrees;
    var path, v := dir + [entry.name], EntryVisit(dir, parent, entry);
    var below := Visits(path, Node(path), entry.entries);
    assert VisitsOf(dir, parent, entry) == [v] + below;
    SuffixDistinct([v], below);
    forall k | 0 <= k < |below| && Node(below[k].path) in IndexOf(entered)
      ensures Agrees(IndexOf(entered)[Node(below[k].path)], below[k])
    {
      assert ([v] + below)[0] == v && ([v] + below)[k + 1] == below[k];
      FoldElsewhere(IndexOf(db), [v], below[k].path);
    }
  }

  /** A directory of a library was visited, whole or in part. */
  lemma ProgressBelow(start: Db, db: Db, db': Db, files: Buffer, waiting: seq<Visit>, dir: Path, parent: Ident,
                      entries: seq<FileEntry>, i: nat, next: seq<Visit>)
    requires i < |entries| && CanFollow(start, Visits(dir, parent, entries))
    requires next <= VisitsOf(dir, parent, entries[i])
    requires Progress(start, db, files, waiting, Visits(dir, parent, entries[..i])) && HasTakenIn(db, db', next)
    ensures Progress(start, db', files, waiting, Visits(dir, parent, entries[..i]) + next)
  {
    hide IsLibrary, IndexOf, Visits, VisitsOf, PathsDistinct, IsUnmodified, Progress, HasTakenIn;
    SeenSoFar(dir, parent, entries, i, next);
    ProgressInDatabase(start, db, db', files, waiting, Visits(dir, parent, entries[..i]), next);
  }

  lemma TakenInTransitive(a: Db, b: Db, c: Db, vs: seq<Visit>, ws: seq<Visit>)
    requires HasTakenIn(a, b, vs) && HasTakenIn(b, c, ws)
    ensures HasTakenIn(a, c, vs + ws)
  {
    hide IsLibrary, IndexOf, Fold, Extends, NewPath, IsUnvisited;
    ExtendsTransitive(a, b, c);
    FoldConcat(IndexOf(a), vs, ws);
    forall path | IsUnvisited(vs + ws, path)
      ensures IsUnvisited(vs, path) && IsUnvisited(ws, path)
    {
      UnvisitedParts(vs, ws, path);
    }
  }
}
