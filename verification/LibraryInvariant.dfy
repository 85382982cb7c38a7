/** What holds of the library database after every step of a scan, and after every prune
    that was not cut short, as long as no file was modified since it was indexed. */
module LibraryInvariant {
  import opened Basics
  import opened MusicDatabase
  import opened LibraryIndex
  import opened LibraryTree
  import Mime

  // ----- The shape of the index -----

  ghost predicate IsFolder(idx: Index, i: Ident) {
    i in idx && (idx[i].upnpClass == Container || idx[i].upnpClass == StorageFolder)
  }

  /** `parent` is the container that a path belongs under: the one of its directory,
      or "Browse filesystem" for the entries of the library directory itself. */
  ghost predicate BelongsUnder(idx: Index, path: Path, parent: Ident) {
    && path != []
    && IsFolder(idx, parent)
    && (parent == Layout(3) || parent == Node(path[..|path| - 1]))
  }

  /** A resource can be offered for this content. */
  predicate IsPlayable(content: Content) {
    content.mimeType.Some? && Mime.ExtensionFromType(Mime.TypeFromString(content.mimeType.value)).Some?
  }

  /** Everything but a container has a path and can be offered. */
  predicate IsOffered(upnpClass: UpnpClass, content: Content) {
    upnpClass.IsContainer() || (content.filePath.Some? && IsPlayable(content))
  }

  /** A song that names an album is listed under it. */
  ghost predicate IsListed(idx: Index, path: Path, content: Content) {
    content.album.Some? ==>
      && AlbumTrack(path) in idx
      && idx[AlbumTrack(path)].parent == Album(content.album.value, content.albumArtist)
  }

  ghost predicate FileWellPlaced(idx: Index, path: Path, e: Entry) {
    && (e.upnpClass == AudioItem || e.upnpClass == VideoItem || e.upnpClass == ImageItem)
    && IsPlayable(e.content)
    && IsListed(idx, path, e.content)
  }

  ghost predicate WellPlaced(idx: Index, i: Ident, e: Entry) {
    match i
    case Layout(_) => i in LAYOUT && e == LAYOUT[i]
    case Node(path) =>
      && BelongsUnder(idx, path, e.parent)
      && e.name == path[|path| - 1]
      && e.content.filePath == Some(path)
      && (e.upnpClass == Container || FileWellPlaced(idx, path, e))
    case Album(name, artist) =>
      && e.parent == Layout(2)
      && e.name == name
      && e.upnpClass == MusicAlbum
      && e.content.artist == artist
      && e.content.filePath == None
    case AlbumTrack(path) =>
      && e.parent.Album?
      && e.parent in idx
      && e.upnpClass == AudioItem
      && Node(path) in idx
      && idx[Node(path)] == e.(parent := idx[Node(path)].parent)
  }

  ghost predicate Shape(idx: Index) {
    && Includes(idx, LAYOUT)
    && forall i :: i in idx ==> WellPlaced(idx, i, idx[i])
  }

  /** A database that holds a library, whole or partly scanned. */
  ghost predicate IsLibrary(db: Db) {
    Core(db) && Shape(IndexOf(db))
  }

  // ----- The shape is kept -----

  lemma WellPlacedStays(idx: Index, idx': Index, i: Ident, e: Entry)
    requires WellPlaced(idx, i, e) && Includes(idx', idx)
    ensures WellPlaced(idx', i, e)
  {
    hide IsPlayable;
  }

  lemma ShapeGrows(idx: Index, idx': Index)
    requires Shape(idx) && Includes(idx', idx)
    requires forall i :: i in idx' && i !in idx ==> WellPlaced(idx', i, idx'[i])
    ensures Shape(idx')
  {
    hide WellPlaced;
    forall i | i in idx'
      ensures WellPlaced(idx', i, idx'[i])
    {
      if i in idx {
        WellPlacedStays(idx, idx', i, idx[i]);
      }
    }
  }

  /** The entry hangs under the container of its directory. */
  ghost predicate IsPlaced(idx: Index, v: Visit) {
    BelongsUnder(idx, v.path, v.parent) && v.entry.name == v.path[|v.path| - 1]
  }

  lemma DirectoryKeepsShape(idx: Index, v: Visit)
    requires Shape(idx) && v.entry.Directory? && IsPlaced(idx, v) && Node(v.path) !in idx
    ensures Shape(idx + map[Node(v.path) := DirectoryEntry(v)])
  {
    hide WellPlaced, IsPlaced, Shape;
    var idx' := idx + map[Node(v.path) := DirectoryEntry(v)];
    DirectoryWellPlaced(idx, idx', v);
    ShapeGrows(idx, idx');
  }

  lemma DirectoryWellPlaced(idx: Index, idx': Index, v: Visit)
    requires v.entry.Directory? && IsPlaced(idx, v) && Includes(idx', idx)
    ensures WellPlaced(idx', Node(v.path), DirectoryEntry(v))
  {
    hide FileWellPlaced;
    PlacedStays(idx, idx', v);
  }

  lemma PlacedStays(idx: Index, idx': Index, v: Visit)
    requires IsPlaced(idx, v) && Includes(idx', idx)
    ensures IsPlaced(idx', v)
  {
  }

  lemma AlbumKeepsShape(idx: Index, v: Visit)
    requires Shape(idx)
    ensures Shape(WithAlbum(idx, v))
  {
    hide HasAlbum;
    if HasAlbum(v) && AlbumOf(v) !in idx {
      assert WellPlaced(WithAlbum(idx, v), AlbumOf(v), AlbumEntry(v));
      hide WellPlaced;
      ShapeGrows(idx, WithAlbum(idx, v));
    }
  }

  lemma FilesPlayable(v: Visit)
    requires IsIndexed(v)
    ensures var upnpClass := FileEntryOf(v).upnpClass;
            upnpClass == AudioItem || upnpClass == VideoItem || upnpClass == ImageItem
    ensures IsPlayable(FileEntryOf(v).content)
  {
    var t := Mime.TypeFromFile(v.entry.name);
    Mime.PlayableFilesPrint(v.entry.name);
    Mime.StringRoundTrip(t);
    hide Mime.TypeFromFile, Mime.TypeFromString, Mime.ExtensionFromType;
    assert Mime.ToString(t).value != "" by { MimeTypesNotEmpty(t); }
    hide Mime.ToString;
    assert FileMetadata(v).mimeType == Mime.ToString(t).value;
  }

  lemma MimeTypesNotEmpty(t: Mime.Type)
    ensures Mime.ToString(t).Some? ==> Mime.ToString(t).value != ""
  {
  }

  lemma AlbumTag(v: Visit)
    requires IsIndexed(v)
    ensures var content := FileEntryOf(v).content;
            (content.album.Some? <==> HasAlbum(v))
            && (content.album.Some? ==>
                  AlbumOf(v) == Album(content.album.value, content.albumArtist)
                  && ClassOfFile(v.entry.name) == Some(AudioItem))
  {
    hide ClassOfFile, MimeTypeOfFile;
  }

  lemma FileWellPlacedInIndex(idx: Index, v: Visit)
    requires IsIndexed(v) && IsPlaced(idx, v) && Includes(idx, FileIndex(v))
    ensures WellPlaced(idx, Node(v.path), FileEntryOf(v))
  {
    hide ClassOfFile, MimeTypeOfFile, HasAlbum;
    FilesPlayable(v);
    AlbumTag(v);
    assert FileEntryOf(v).content.filePath == Some(v.path);
  }

  lemma SongWellPlaced(idx: Index, v: Visit)
    requires IsIndexed(v) && HasAlbum(v) && Includes(idx, FileIndex(v)) && AlbumOf(v) in idx
    ensures WellPlaced(idx, AlbumTrack(v.path), SongEntry(v))
  {
    hide MimeTypeOfFile, ClassOfFile, HasAlbum;
    AlbumTag(v);
  }

  ghost predicate IsAbsent(idx: Index, path: Path) {
    Node(path) !in idx && AlbumTrack(path) !in idx
  }

  lemma FileKeepsShape(idx: Index, v: Visit)
    requires Shape(idx) && IsIndexed(v) && IsPlaced(idx, v) && IsAbsent(idx, v.path)
    requires HasAlbum(v) ==> AlbumOf(v) in idx
    ensures Shape(idx + FileIndex(v)) && Includes(idx + FileIndex(v), idx)
  {
    hide WellPlaced, FileEntryOf, SongEntry, Shape, IsPlaced, IsIndexed, HasAlbum;
    var idx' := idx + FileIndex(v);
    FileIndexKeys(v);
    PlacedStays(idx, idx', v);
    FileWellPlacedInIndex(idx', v);
    if HasAlbum(v) {
      SongWellPlaced(idx', v);
    }
    ShapeGrows(idx, idx');
  }

  /** A file that an index is ready for. */
  ghost predicate IsReadyFor(idx: Index, v: Visit) {
    && IsIndexed(v)
    && IsPlaced(idx, v)
    && IsAbsent(idx, v.path)
    && (HasAlbum(v) ==> AlbumOf(v) in idx)
  }

  lemma ReadyStays(idx: Index, idx': Index, v: Visit)
    requires IsReadyFor(idx, v) && Includes(idx', idx) && IsAbsent(idx', v.path)
    ensures IsReadyFor(idx', v)
  {
    hide IsIndexed, HasAlbum, IsPlaced;
    PlacedStays(idx, idx', v);
  }

  lemma {:induction false} PendingKeepsShape(idx: Index, vs: seq<Visit>)
    requires Shape(idx) && PathsDistinct(vs)
    requires forall k :: 0 <= k < |vs| ==> IsIndexed(vs[k]) && IsReadyFor(idx, vs[k])
    ensures Shape(idx + Pending(vs)) && Includes(idx + Pending(vs), idx)
  {
    hide IsIndexed, HasAlbum, FileIndex, IsOfPath, IsPlaced, Shape;
    if vs == [] {
      assert idx + Pending(vs) == idx;
      return;
    }
    var n := |vs| - 1;
    var before := idx + Pending(vs[..n]);
    PendingKeepsShape(idx, vs[..n]);
    PendingApart(vs);
    assert IsAbsent(idx, vs[n].path);
    ReadyStays(idx, before, vs[n]);
    FileKeepsShape(before, vs[n]);
    assert idx + Pending(vs) == before + FileIndex(vs[n]);
  }

  /** Files with other paths bring other objects. */
  lemma PendingApart(vs: seq<Visit>)
    requires vs != [] && PathsDistinct(vs) && forall k :: 0 <= k < |vs| ==> IsIndexed(vs[k])
    ensures IsAbsent(Pending(vs[..|vs| - 1]), vs[|vs| - 1].path)
  {
    hide IsIndexed;
    PendingKeys(vs[..|vs| - 1]);
  }

  // ----- What the queries find -----

  /** A path is new to the metadata exactly if there is no object for it. */
  lemma NewPathsAreNotIndexed(db: Db, path: Path)
    requires IsLibrary(db)
    ensures NewPath(db, path) <==> Node(path) !in IndexOf(db)
  {
    if NewPath(db, path) {
      NewPathNotIndexed(db, path, Node(path));
    } else {
      var m :| m in db.metadata.rows && db.metadata.rows[m].filePath == Some(path);
      MetadataOfPath(db, m, path);
    }
  }

  lemma IndexHas(db: Db, id: int)
    requires Linked(db) && Injective(db) && id in db.objects.rows
    ensures IdentOf(db, id) in IndexOf(db) && IndexOf(db)[IdentOf(db, id)] == EntryOf(db, id)
  {
    hide IdentOf, EntryOf, Linked;
    IndexTabulates(db);
    assert Idents(db)[id] in IndexOf(db);
  }

  lemma IdentWithPath(db: Db, id: int, path: Path)
    requires Linked(db) && db.HasPath(id, path)
    ensures var i := IdentOf(db, id);
            i == Node(path) || i == AlbumTrack(path) || (i.Album? && EntryOf(db, id).content.filePath == Some(path))
    ensures EntryOf(db, id).content == db.metadata.rows[db.objects.rows[id].metaData]
  {
  }

  /** An object with a path is the node of the path or its copy under an album. */
  lemma ObjectWithPath(db: Db, id: int, path: Path)
    requires IsLibrary(db) && db.HasPath(id, path)
    ensures IdentOf(db, id) == Node(path) || IdentOf(db, id) == AlbumTrack(path)
    ensures Node(path) in IndexOf(db)
    ensures IndexOf(db)[Node(path)].content == db.metadata.rows[db.objects.rows[id].metaData]
  {
    hide IdentOf, EntryOf, IndexOf, Linked, Injective, Shape;
    IndexHas(db, id);
    IdentWithPath(db, id, path);
    PathEntry(IndexOf(db), IdentOf(db, id), path);
  }

  lemma PathEntry(idx: Index, i: Ident, path: Path)
    requires Shape(idx) && i in idx
    requires i == Node(path) || i == AlbumTrack(path) || (i.Album? && idx[i].content.filePath == Some(path))
    ensures !i.Album? && Node(path) in idx && idx[Node(path)].content == idx[i].content
    ensures i == AlbumTrack(path) ==> idx[Node(path)].upnpClass == AudioItem
  {
    hide BelongsUnder, FileWellPlaced;
    assert WellPlaced(idx, i, idx[i]);
  }

  lemma MetadataOfPath(db: Db, m: int, path: Path)
    requires IsLibrary(db) && m in db.metadata.rows && db.metadata.rows[m].filePath == Some(path)
    ensures Node(path) in IndexOf(db) && IndexOf(db)[Node(path)].content == db.metadata.rows[m]
  {
    hide IndexOf, Linked, Injective, Shape;
    assert IsReferenced(db, m);
    var id :| id in db.objects.rows && db.objects.rows[id].metaData == m;
    ObjectWithPath(db, id, path);
  }

  /** A path has an object exactly if it is in the index; for a directory it is the
      directory's own object. */
  lemma PathsFound(db: Db, path: Path)
    requires IsLibrary(db)
    ensures (exists id :: db.HasPath(id, path)) <==> Node(path) in IndexOf(db)
    ensures forall id :: db.HasPath(id, path) && IndexOf(db)[Node(path)].upnpClass == Container ==>
            IdentOf(db, id) == Node(path)
  {
    hide IdentOf, EntryOf, IndexOf, Linked, Injective, Db.HasPath, Shape;
    if Node(path) in IndexOf(db) {
      var id := ObjectOf(db, Node(path));
      NodeHasPath(db, id, path);
    }
    forall id | db.HasPath(id, path)
      ensures Node(path) in IndexOf(db)
      ensures IndexOf(db)[Node(path)].upnpClass == Container ==> IdentOf(db, id) == Node(path)
    {
      ObjectWithPath(db, id, path);
      if IdentOf(db, id) == AlbumTrack(path) {
        PathObjectInRows(db, id, path);
        IndexHas(db, id);
        PathEntry(IndexOf(db), AlbumTrack(path), path);
      }
    }
  }

  lemma NodeHasPath(db: Db, id: int, path: Path)
    requires Linked(db) && id in db.objects.rows && IdentOf(db, id) == Node(path)
    ensures db.HasPath(id, path)
  {
    assert LinkedRow(db, id, db.objects.rows[id]);
  }

  lemma PathObjectInRows(db: Db, id: int, path: Path)
    requires db.HasPath(id, path)
    ensures id in db.objects.rows
  {
  }

  /** The album query finds an album exactly if it is in the index. */
  lemma AlbumsFound(db: Db, title: string, artist: Option<string>)
    requires IsLibrary(db)
    ensures (exists id :: db.IsAlbum(id, title, artist)) <==> Album(title, artist) in IndexOf(db)
    ensures forall id :: db.IsAlbum(id, title, artist) ==>
            id in db.objects.rows && IdentOf(db, id) == Album(title, artist)
  {
    hide IndexOf, Injective, Shape, EntryOf;
    if Album(title, artist) in IndexOf(db) {
      var id := ObjectOf(db, Album(title, artist));
      AlbumObject(db, id, title, artist);
    }
    if id :| db.IsAlbum(id, title, artist) {
      IndexHas(db, id);
    }
  }

  lemma AlbumObject(db: Db, id: int, title: string, artist: Option<string>)
    requires Linked(db) && id in db.objects.rows && IdentOf(db, id) == Album(title, artist)
    ensures db.IsAlbum(id, title, artist)
  {
    assert LinkedRow(db, id, db.objects.rows[id]);
  }

  /** The fixed containers have their own ids. */
  lemma LayoutObject(db: Db, id: int)
    requires IsLibrary(db) && Layout(id) in LAYOUT
    ensures id in db.objects.rows && IdentOf(db, id) == Layout(id)
  {
    hide IdentFor, EntryOf, IndexOf, Linked, Injective, WellPlaced, PathsUnique, AllReferenced;
    var found := ObjectOf(db, Layout(id));
    hide IdentOf;
    LayoutIdents(db, found, id);
  }

  lemma LayoutIdents(db: Db, found: int, id: int)
    requires IdentOf(db, found) == Layout(id)
    ensures found == id
  {
  }

  lemma EntryIsOffered(idx: Index, i: Ident)
    requires Shape(idx) && i in idx
    ensures IsOffered(idx[i].upnpClass, idx[i].content)
  {
    hide BelongsUnder, IsPlayable, IsListed;
    assert WellPlaced(idx, i, idx[i]);
    if i.AlbumTrack? {
      assert WellPlaced(idx, Node(i.path), idx[Node(i.path)]);
    }
  }
}
