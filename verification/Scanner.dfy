/** The scanner, which brings the library database in line with a file tree.

    It runs beside a thread that may cancel it at any moment; `stop` is looked at
    before every directory entry.  Files are collected in a buffer per directory,
    which is written to the database when the directory is done, or given up. */
module Scanning {
  import opened Basics
  import opened MusicDatabase
  import opened LibraryIndex
  import opened LibraryTree
  import opened LibraryInvariant
  import opened LibrarySoundness
  import opened ScanProgress
  import opened ScanSteps
  import opened MetadataRows

  /** The index that a scan of this database starts from. */
  ghost function Base(db: Db): Index {
    if db == EMPTY then LAYOUT else IndexOf(db)
  }

  ghost function AllVisits(path: Path, entries: seq<FileEntry>): seq<Visit> {
    Visits(path, Layout(BROWSE_FILE_SYSTEM_ID), entries)
  }

  /** A library, or nothing yet, and a tree that was not modified since it was indexed. */
  ghost predicate CanScan(db: Db, path: Path, entries: seq<FileEntry>) {
    && (db == EMPTY || IsLibrary(db))
    && NamesDistinct(entries)
    && IsUnmodified(IndexOf(db), AllVisits(path, entries))
  }

  /** The database after a scan that has seen these entries of the library directory. */
  ghost predicate IsScan(db: Db, db': Db, path: Path, entries: seq<FileEntry>, seen: seq<Visit>) {
    && IsLibrary(db')
    && seen <= AllVisits(path, entries)
    && IndexOf(db') == Fold(Base(db), seen)
    && (db != EMPTY ==> Extends(db, db'))
  }

  class Scanner {
    const libraryDb: MusicDb
    var stop: bool
    var scannedFiles: nat
    var initialScan: bool

    constructor (db: MusicDb)
      ensures libraryDb == db && !stop && scannedFiles == 0
    {
      libraryDb, stop, scannedFiles, initialScan := db, false, 0, false;
    }

    method Cancel()
      modifies this`stop
      ensures stop
    {
      stop := true;
    }

    /** Finds the object of a directory, or adds it. */
    method ObjectOfDirectory(path: Path, entry: FileEntry, parentId: int, ghost parent: Ident) returns (objectId: int)
      requires IsSound(libraryDb.View()) && entry.Directory? && path != []
      requires CanHold(libraryDb.View(), parentId, DirOf(Some(path)))
      modifies libraryDb
      ensures IsSound(libraryDb.View()) && Extends(old(libraryDb.View()), libraryDb.View())
      ensures CanHold(libraryDb.View(), objectId, Some(path))
      ensures RowsFollow(old(libraryDb.View()), libraryDb.View(), [], [Visit(path, parent, entry)])
      ensures CanTakeIn(old(libraryDb.View()), Visit(path, parent, entry), parentId) ==>
                IsDirectoryTakenIn(old(libraryDb.View()), libraryDb.View(), Visit(path, parent, entry), objectId)
    {
      hide IsSound, CanTakeIn, IsDirectoryTakenIn, CanHold, Extends, RowsFollow;
      ghost var db, v := libraryDb.View(), Visit(path, parent, entry);
      SoundIsValid(db);
      var found;
      found, objectId := libraryDb.ItemExists(path);
      assert libraryDb.View() == db;
      if found {
        DirectoryFound(db, v, parentId, objectId);
        NothingBringsRow(db, [v]);
      } else {
        var item := LibraryItem(0, parentId, 0, entry.name, Container);
        var meta := LibraryMetadata("", item.name, "", "", "", path, "", entry.thumbnail, NO_AUDIO, 0, 0);
        assert meta == DirectoryMetadata(v);
        DirectoryNew(db, item, v);
        NewDirectoryBringsRow(db, item, v);
        objectId := libraryDb.AddItem(item, meta);
      }
    }

    /** Finds the album of a song, or adds it. */
    method ObjectOfAlbum(tags: Tags, ghost v: Visit) returns (albumId: int)
      requires IsSound(libraryDb.View()) && HasAlbum(v) && TagsOf(v) == Some(tags)
      modifies libraryDb
      ensures IsSound(libraryDb.View()) && Extends(old(libraryDb.View()), libraryDb.View())
      ensures IsFixed(libraryDb.View(), albumId)
      ensures libraryDb.View().IsAlbum(albumId, tags.album, Tvin(tags.albumArtist))
      ensures RowsFollow(old(libraryDb.View()), libraryDb.View(), [], [])
      ensures IsLibrary(old(libraryDb.View())) ==> IsAlbumTakenIn(old(libraryDb.View()), libraryDb.View(), v, albumId)
    {
      hide IsSound, IsLibrary, IsAlbumTakenIn, IsFixed, Extends, TagsOf, RowsFollow;
      ghost var db := libraryDb.View();
      SoundIsValid(db);
      var found;
      found, albumId := libraryDb.AlbumExists(tags.album, tags.albumArtist);
      assert libraryDb.View() == db;
      if found {
        AlbumFound(db, v, albumId);
        NothingBringsRow(db, []);
      } else {
        var album := LibraryItem(0, ALBUMS_ID, 0, tags.album, MusicAlbum);
        AlbumNew(db, album, v);
        NewAlbumBringsNone(db, album, tags);
        albumId := libraryDb.AddItem(album, AlbumMetadata(tags));
      }
    }

    /** A file of a directory: if it is not known, or was modified, it goes to the buffer
        with its objects. */
    method OnFile(path: Path, file: FileEntry, parentId: int, items: Buffer, ghost parent: Ident,
                  ghost start: Db, ghost waiting: seq<Visit>, ghost seen: seq<Visit>)
      returns (items': Buffer, ghost waiting': seq<Visit>)
      requires IsSound(libraryDb.View()) && FilesFitIn(libraryDb.View(), items) && file.RegularFile? && path != []
      requires CanHold(libraryDb.View(), parentId, DirOf(Some(path)))
      modifies this`scannedFiles, libraryDb
      ensures scannedFiles == old(scannedFiles) + 1
      ensures IsSound(libraryDb.View()) && Extends(old(libraryDb.View()), libraryDb.View())
      ensures FilesFitIn(libraryDb.View(), items')
      ensures RowsFollow(old(libraryDb.View()), libraryDb.View(), [], [])
      ensures var v := Visit(path, parent, file);
              if BringsRow(old(libraryDb.View()), v) then HasOneMore(items, items', FileMetadata(v))
              else items' == items
      ensures var v, db := Visit(path, parent, file), old(libraryDb.View());
              CanTakeIn(db, v, parentId) && Progress(start, db, items, waiting, seen) && PathsDistinct(seen + [v]) ==>
                Progress(start, libraryDb.View(), items', waiting', seen + [v])
    {
      hide IsSound, CanTakeIn, IsAlbumTakenIn, IsLibrary, FilesFitIn, CanHold, Extends, ClassOfFile, FileMetadata,
           PathsDistinct, Progress, MimeTypeOfFile, IsFixed, Db.HasStatus, IndexOf, Db.IsAlbum, RowsFollow;
      ghost var db, v := libraryDb.View(), Visit(path, parent, file);
      ghost var clean := CanTakeIn(db, v, parentId) && Progress(start, db, items, waiting, seen)
          && PathsDistinct(seen + [v]);
      NothingNew(db);
      NothingBringsRow(db, []);
      scannedFiles := scannedFiles + 1;
      items', waiting' := items, waiting;
      var upnpClass := ClassOfFile(file.name);
      if upnpClass == None {
        if clean {
          FileSkipped(start, db, items, waiting, seen, v);
        }
        return;
      }
      SoundIsValid(db);
      var status := libraryDb.GetItemStatus(path, file.modifyTime);
      assert libraryDb.View() == db;
      StatusBrings(db, v, status);
      hide BringsRow;
      if status == UpToDate {
        if clean {
          FileSkipped(start, db, items, waiting, seen, v);
        }
        return;
      }
      if clean {
        UnmodifiedFileIsNew(db, v, parentId, status);
      }
      var curItems: seq<LibraryItem> := [];
      var item := LibraryItem(0, parentId, 0, file.name, upnpClass.value);
      var tags := if upnpClass == Some(AudioItem) then file.tags else None;
      if tags.Some? && tags.value.album != "" {
        var albumId := ObjectOfAlbum(tags.value, v);
        curItems := [LibraryItem(0, albumId, 0, item.name, item.upnpClass)];
      }
      curItems := curItems + [item];
      var meta := MetadataOfFile(path, file, tags);
      items' := items + [(curItems, meta)];
      ghost var db' := libraryDb.View();
      MetadataOfVisit(v);
      FileOnAnyDatabase(db, db', items, curItems, v, parentId);
      if clean {
        LibraryOfVisit(db, v, parentId);
        waiting' := waiting + [v];
        FileInLibrary(start, db, db', items, waiting, seen, curItems, v, parentId);
      }
    }

    /** A directory within `dir`: its object, and then its entries. */
    method OnDirectory(dir: Path, entry: FileEntry, parentId: int, ghost parent: Ident) returns (ghost seen: seq<Visit>)
      requires IsSound(libraryDb.View()) && entry.Directory? && CanHold(libraryDb.View(), parentId, Some(dir))
      modifies this, libraryDb
      ensures IsSound(libraryDb.View()) && Extends(old(libraryDb.View()), libraryDb.View())
      ensures seen <= VisitsOf(dir, parent, entry)
      ensures !stop ==> seen == VisitsOf(dir, parent, entry)
      ensures scannedFiles == old(scannedFiles) + CountFiles(seen)
      ensures PathsDistinct(VisitsOf(dir, parent, entry)) ==>
                RowsFollow(old(libraryDb.View()), libraryDb.View(), [], seen)
      ensures CanTakeIn(old(libraryDb.View()), EntryVisit(dir, parent, entry), parentId)
              && CanFollow(old(libraryDb.View()), VisitsOf(dir, parent, entry)) ==>
                HasTakenIn(old(libraryDb.View()), libraryDb.View(), seen)
      decreases entry
    {
      hide IsSound, CanFollow, IsObjectOf, HasTakenIn, CanHold, Extends, Visits, CountFiles, CanTakeIn,
           IsDirectoryTakenIn, RowsFollow, PathsDistinct;
      ghost var start, path, v := libraryDb.View(), dir + [entry.name], EntryVisit(dir, parent, entry);
      ghost var clean := CanTakeIn(start, v, parentId) && CanFollow(start, VisitsOf(dir, parent, entry));
      HolderOfEntry(start, dir, entry, parentId);
      var objectId := ObjectOfDirectory(dir + [entry.name], entry, parentId, parent);
      ghost var entered := libraryDb.View();
      if clean {
        DirectoryEntered(start, entered, dir, parent, entry, objectId);
      }
      ghost var below := Scan(dir + [entry.name], entry.entries, objectId, Node(path));
      if clean {
        TakenInTransitive(start, entered, libraryDb.View(), [v], below);
      }
      if PathsDistinct(VisitsOf(dir, parent, entry)) {
        SuffixDistinct([v], Visits(path, Node(path), entry.entries));
        PrefixDistinct([v] + below, VisitsOf(dir, parent, entry));
        RowsFollowOn(start, entered, libraryDb.View(), [], [v], below);
      }
      ExtendsTransitive(start, entered, libraryDb.View());
      CountFilesConcat([v], below);
      CountFilesOne(v);
      seen := [v] + below;
    }

    /** Scans the entries of a directory whose object is `parentId`.  Another thread may
        cancel the scan at any entry; what was seen until then is in the database. */
    method Scan(dir: Path, entries: seq<FileEntry>, parentId: int, ghost parent: Ident) returns (ghost seen: seq<Visit>)
      requires IsSound(libraryDb.View()) && CanHold(libraryDb.View(), parentId, Some(dir))
      modifies this, libraryDb
      ensures IsSound(libraryDb.View()) && Extends(old(libraryDb.View()), libraryDb.View())
      ensures seen <= Visits(dir, parent, entries)
      ensures !stop ==> seen == Visits(dir, parent, entries)
      ensures old(stop) ==> stop && seen == []
      ensures scannedFiles == old(scannedFiles) + CountFiles(seen)
      ensures PathsDistinct(Visits(dir, parent, entries)) ==>
                RowsFollow(old(libraryDb.View()), libraryDb.View(), [], seen)
      ensures CanFollow(old(libraryDb.View()), Visits(dir, parent, entries))
              && IsObjectOf(old(libraryDb.View()), parentId, dir, parent) ==>
                HasTakenIn(old(libraryDb.View()), libraryDb.View(), seen)
      decreases entries
    {
      hide IsSound, CanFollow, IsObjectOf, HasTakenIn, FilesFitIn, CanHold, Extends, Visits, CountFiles, InsertAll,
           Progress, CanTakeIn, PathsDistinct, HasOneMore, FileMetadata, RowsFollow, BringsRow;
      ghost var start := libraryDb.View();
      ghost var distinct := PathsDistinct(Visits(dir, parent, entries));
      ghost var clean := CanFollow(start, Visits(dir, parent, entries)) && IsObjectOf(start, parentId, dir, parent);
      ghost var waiting: seq<Visit> := [];
      ghost var now := start;
      var items: Buffer := [];
      seen := [];
      ScanStarts(start, dir, parent, entries);
      NothingBringsRow(start, []);
      var i := 0;
      while i < |entries|
        invariant 0 <= i <= |entries|
        invariant now == libraryDb.View()
        invariant IsSound(now) && Extends(start, now) && FilesFitIn(now, items)
        invariant seen <= Visits(dir, parent, entries)
        invariant !stop ==> seen == Visits(dir, parent, entries[..i])
        invariant old(stop) ==> stop && seen == []
        invariant scannedFiles == old(scannedFiles) + CountFiles(seen)
        invariant distinct ==> RowsFollow(start, now, items, seen)
        invariant clean ==> Progress(start, now, items, waiting, seen)
      {
        if * {
          Cancel();
        }
        if stop {
          break;
        }
        var entry := entries[i];
        ghost var db := now;
        ghost var next: seq<Visit> := [EntryVisit(dir, parent, entry)];
        HolderStays(start, db, parentId, dir);
        if distinct {
          EntryDistinct(dir, parent, entries, i);
        }
        if clean {
          EntryReady(start, db, items, waiting, dir, parent, entries, i, parentId);
        }
        match entry {
        case Directory(_, _, _) =>
          next := OnDirectory(dir, entry, parentId, parent);
          now := libraryDb.View();
          BufferStillFits(start, db, now, items);
          if distinct {
            RowsAfterDirectory(start, db, now, items, dir, parent, entries, i, next);
          }
          if clean {
            ProgressBelow(start, db, now, items, waiting, dir, parent, entries, i, next);
          }
        case RegularFile(_, _, _, _) =>
          HolderOfEntry(db, dir, entry, parentId);
          ghost var before := items;
          items, waiting := OnFile(dir + [entry.name], entry, parentId, items, parent, start, waiting, seen);
          now := libraryDb.View();
          if distinct {
            RowsAfterFile(start, db, now, before, items, dir, parent, entries, i);
          }
          ExtendsTransitive(start, db, now);
          CountFilesOne(next[0]);
        case OtherEntry(_) =>
          CountFilesOne(next[0]);
          if distinct {
            RowsAfterOther(start, db, items, dir, parent, entries, i);
          }
          if clean {
            OtherSkipped(start, db, items, waiting, seen, next[0]);
          }
        }
        NextSeen(dir, parent, entries, i, next);
        CountFilesConcat(seen, next);
        seen := seen + next;
        i := i + 1;
      }
      assert entries[..|entries|] == entries;
      FilesKeepSound(now, items);
      if distinct {
        RowsFollowFlush(start, now, items, seen);
      }
      ExtendsTransitive(start, now, InsertAll(now, items));
      if clean {
        ProgressEnds(start, now, items, waiting, seen);
      }
      if items != [] {
        libraryDb.AddItems(items);
      } else {
        NothingToFlush(now);
      }
    }

    /** Puts the fixed containers into an empty database. */
    method CreateInitialLayout()
      requires libraryDb.View() == EMPTY
      modifies libraryDb
      ensures IsLibrary(libraryDb.View()) && IsSound(libraryDb.View()) && IndexOf(libraryDb.View()) == LAYOUT
      ensures forall path :: NewPath(libraryDb.View(), path)
    {
      hide Table.Valid, Table.Insert, Table.InsertWithId, IsLibrary, IndexOf, NewPath, ContentOf, RowOf,
           LayoutMetadata, HasLayout, IsSound;
      EmptyHasLayout();
      ghost var db0 := libraryDb.View();
      var root := LibraryItem(ROOT_ID, -1, 0, PACKAGE_NAME, Container);
      NextLayoutRow(db0, root, 0);
      var ok := libraryDb.AddItemWithId(root, LayoutMetadata(root.name));
      ghost var db1 := libraryDb.View();
      var music := LibraryItem(MUSIC_ID, ROOT_ID, 0, "Music", Container);
      NextLayoutRow(db1, music, 1);
      ok := libraryDb.AddItemWithId(music, LayoutMetadata(music.name));
      ghost var db2 := libraryDb.View();
      var albums := LibraryItem(ALBUMS_ID, music.objectId, 0, "Albums", Container);
      NextLayoutRow(db2, albums, 2);
      ok := libraryDb.AddItemWithId(albums, LayoutMetadata(albums.name));
      ghost var db3 := libraryDb.View();
      var browse := LibraryItem(BROWSE_FILE_SYSTEM_ID, ROOT_ID, 0, "Browse filesystem", StorageFolder);
      NextLayoutRow(db3, browse, 3);
      ok := libraryDb.AddItemWithId(browse, LayoutMetadata(browse.name));
      LayoutIsLibrary(libraryDb.View());
      LibraryIsSound(libraryDb.View());
    }

    /** Scans the library directory `path`, after laying out a new database. */
    method PerformScan(path: Path, entries: seq<FileEntry>) returns (ghost seen: seq<Visit>)
      requires libraryDb.View() == EMPTY || IsSound(libraryDb.View())
      modifies this, libraryDb
      ensures IsSound(libraryDb.View())
      ensures old(libraryDb.View()) != EMPTY ==> Extends(old(libraryDb.View()), libraryDb.View())
      ensures seen <= AllVisits(path, entries) && (!stop ==> seen == AllVisits(path, entries))
      ensures scannedFiles == CountFiles(seen)
      ensures NamesDistinct(entries) ==> RowsFollow(old(libraryDb.View()), libraryDb.View(), [], seen)
      ensures CanScan(old(libraryDb.View()), path, entries) ==>
                IsScan(old(libraryDb.View()), libraryDb.View(), path, entries, seen)
    {
      hide IsSound, IsLibrary, IndexOf, Visits, Fold, Extends, CountFiles, CanScan, IsScan, CanFollow, IsObjectOf,
           HasTakenIn, CanHold, RowsFollow, NewPath, NamesDistinct;
      stop := false;
      ghost var db := libraryDb.View();
      var count := libraryDb.GetObjectCount();
      initialScan := count == 0;
      scannedFiles := 0;
      EmptyOrSound(db);
      if initialScan {
        CreateInitialLayout();
      }
      ghost var laidOut := libraryDb.View();
      BrowseCanHold(laidOut, path);
      if CanScan(db, path, entries) {
        ReadyToScan(db, laidOut, path, entries);
      }
      seen := Scan(path, entries, BROWSE_FILE_SYSTEM_ID, Layout(BROWSE_FILE_SYSTEM_ID));
      if NamesDistinct(entries) {
        NamesMakePathsDistinct(path, Layout(BROWSE_FILE_SYSTEM_ID), entries);
        RowsOfWholeScan(db, laidOut, libraryDb.View(), path, entries, seen);
      }
      if CanScan(db, path, entries) {
        WhatWasScanned(db, laidOut, libraryDb.View(), path, entries, seen);
      }
    }
  }

  // ----- A whole scan -----

  /** The layout is there, and nothing in the tree was modified since it was indexed. */
  lemma ReadyToScan(db: Db, laidOut: Db, path: Path, entries: seq<FileEntry>)
    requires CanScan(db, path, entries)
    requires if db == EMPTY then IsLibrary(laidOut) && IndexOf(laidOut) == LAYOUT else laidOut == db
    ensures CanFollow(laidOut, AllVisits(path, entries))
    ensures IsObjectOf(laidOut, BROWSE_FILE_SYSTEM_ID, path, Layout(BROWSE_FILE_SYSTEM_ID))
  {
    hide IsLibrary, IndexOf, Visits, NamesDistinct, PathsDistinct, IsUnmodified, IsObjectOf;
    NamesMakePathsDistinct(path, Layout(BROWSE_FILE_SYSTEM_ID), entries);
    LayoutUnmodified(AllVisits(path, entries));
    BrowseObject(laidOut, path);
  }

  lemma WhatWasScanned(db: Db, laidOut: Db, db': Db, path: Path, entries: seq<FileEntry>, seen: seq<Visit>)
    requires HasTakenIn(laidOut, db', seen) && seen <= AllVisits(path, entries)
    requires if db == EMPTY then IndexOf(laidOut) == LAYOUT else laidOut == db
    ensures IsScan(db, db', path, entries, seen)
  {
    hide IsLibrary, IndexOf, Visits, Fold, Extends, KeepsNew;
  }
}
