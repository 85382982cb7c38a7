/** What scanning and pruning come to: the library follows the file tree. */
module MusicLibraries {
  import opened Basics
  import Mime
  import opened MusicDatabase
  import opened LibraryIndex
  import opened LibraryTree
  import opened LibraryInvariant
  import opened LibraryPruning
  import opened LibraryRenaming
  import opened LibrarySoundness
  import opened ScanProgress
  import opened ScanSteps
  import opened MetadataRows
  import opened InterruptedPrune
  import opened Scanning

  /** The database after a scan that has seen these entries, and a prune if there was one. */
  ghost predicate IsRound(db: Db, db': Db, path: Path, entries: seq<FileEntry>, exists': Path -> bool, seen: seq<Visit>,
                          pruned: bool) {
    && IsLibrary(db')
    && seen <= AllVisits(path, entries)
    && IndexOf(db') == if pruned then Pruned(Fold(Base(db), seen), exists') else Fold(Base(db), seen)
  }

  // ----- The object -----

  /** The library of the media server.  Its database is sound, or empty, before and after
      every call in which no deletion fails: so it is over any sequence of scans, cancelled
      or not, and prunes. */
  class FilesystemMusicLibrary {
    const db: MusicDb
    var scanner: Scanner
    var destroy: bool
    var libraryPath: Path

    ghost predicate Valid()
      reads this, db
    {
      db.View() == EMPTY || IsSound(db.View())
    }

    /** Opens a database, new or left by an earlier run. */
    constructor (db: MusicDb)
      requires db.View() == EMPTY || IsSound(db.View())
      ensures Valid() && this.db == db && libraryPath == []
    {
      this.db, libraryPath, destroy := db, [], false;
      scanner := new Scanner(db);
    }

    /** A scan and then a prune; if the prune fails, what it had deleted stays deleted. */
    method ScannerThread(entries: seq<FileEntry>, exists': Path -> bool)
      returns (ghost seen: seq<Visit>, ghost scanned: Db, ghost failed: bool)
      requires Valid() && IsPrefixClosed(exists')
      modifies this`destroy, this`scanner, db
      ensures IsSound(scanned) && if failed then IsCut(scanned, db.View(), exists') else IsSound(db.View())
      ensures seen <= AllVisits(libraryPath, entries) && (!scanner.stop ==> seen == AllVisits(libraryPath, entries))
      ensures NamesDistinct(entries) && !failed ==> RowsFollowRound(old(db.View()), db.View(), exists', seen)
      ensures CanScan(old(db.View()), libraryPath, entries) ==>
                && IsRound(old(db.View()), scanned, libraryPath, entries, exists', seen, false)
                && (!failed ==> IsRound(old(db.View()), db.View(), libraryPath, entries, exists', seen, !destroy))
    {
      hide IsSound, IsLibrary, IndexOf, Fold, Visits, Extends, IsPruned, CanScan, IsPrefixClosed, Pruned, CountFiles,
           RowsFollow, RowsFollowRound, NamesDistinct, IsCut;
      ghost var start := db.View();
      scanner := new Scanner(db);
      seen := scanner.PerformScan(libraryPath, entries);
      scanned := db.View();
      failed := false;
      if NamesDistinct(entries) {
        EmptyOrValid(start);
        SoundIsValid(scanned);
        ScanIsRowsRound(start, scanned, exists', seen);
      }
      if * {
        destroy := true;
      }
      if !destroy {
        SoundIsValid(scanned);
        var done := db.RemoveNonExistingFiles(exists');
        failed := !done;
        if done {
          PruningKeepsSound(scanned, db.View(), exists');
          if NamesDistinct(entries) {
            PruneIsRowsRound(start, scanned, db.View(), exists', seen);
          }
          if CanScan(start, libraryPath, entries) {
            PruningKeepsLibrary(scanned, db.View(), exists');
          }
        }
      }
    }

    /** Scans the library directory `path`; if another one was scanned before, the
        database is emptied first. */
    method Scan(startFresh: bool, path: Path, entries: seq<FileEntry>, exists': Path -> bool)
      returns (ghost start: Db, ghost seen: seq<Visit>, ghost failed: bool)
      requires Valid() && IsPrefixClosed(exists')
      modifies this, db
      ensures libraryPath == path && (failed || (Valid() && IsSound(db.View())))
      ensures failed ==> exists scanned :: IsSound(scanned) && IsCut(scanned, db.View(), exists')
      ensures start == if startFresh || (old(libraryPath) != path && old(libraryPath) != []) then EMPTY
              else old(db.View())
      ensures seen <= AllVisits(path, entries) && (!scanner.stop ==> seen == AllVisits(path, entries))
      ensures NamesDistinct(entries) && !failed ==> RowsFollowRound(start, db.View(), exists', seen)
      ensures CanScan(start, path, entries) && !failed ==>
                IsRound(start, db.View(), path, entries, exists', seen, !destroy)
      ensures CanScan(start, path, entries) && !failed && !scanner.stop && !destroy ==>
                forall p :: Knows(db.View(), p) <==> exists'(p) && (Knows(start, p) || IsInTree(path, entries, p))
    {
      hide IsSound, IsRound, CanScan, Visits, IsPrefixClosed, Knows, IsInTree, RowsFollowRound, NamesDistinct, IsCut;
      if startFresh || (libraryPath != path && libraryPath != []) {
        db.ClearDatabase();
      }
      libraryPath := path;
      start := db.View();
      ghost var scanned;
      seen, scanned, failed := ScannerThread(entries, exists');
      if CanScan(start, path, entries) && !failed && !scanner.stop && !destroy {
        forall p
          ensures Knows(db.View(), p) <==> exists'(p) && (Knows(start, p) || IsInTree(path, entries, p))
        {
          LibraryFollowsTree(start, db.View(), path, entries, exists', p);
        }
      }
    }
  }

  lemma EmptyOrValid(db: Db)
    requires db == EMPTY || IsSound(db)
    ensures db.Valid()
  {
    hide IsSoundRow, AlbumsDistinct;
  }

  // ----- The paths of the library -----

  /** Some object has this path. */
  ghost predicate Knows(db: Db, p: Path) {
    exists id :: db.HasPath(id, p)
  }

  /** The tree holds an entry with this path that gets an object. */
  ghost predicate IsInTree(path: Path, entries: seq<FileEntry>, p: Path) {
    exists below: Path, entry :: Holds(entries, below, entry) && GetsObject(entry) && p == path + below
  }

  lemma LibraryKnowsPaths(db: Db)
    requires db == EMPTY || IsLibrary(db)
    ensures KnowsPaths(Base(db))
  {
    hide Core, IndexOf, Shape, Includes;
    LayoutShape();
    forall i | i in Base(db)
      ensures Base(db)[i].content.filePath == OwnPath(i)
    {
      PathOfEntry(Base(db), i);
    }
  }

  lemma VisitedPathsNotEmpty(path: Path, entries: seq<FileEntry>)
    ensures var vs := AllVisits(path, entries); forall k :: 0 <= k < |vs| ==> vs[k].path != []
  {
    hide Visits, Holds;
    var vs := AllVisits(path, entries);
    forall k | 0 <= k < |vs|
      ensures vs[k].path != []
    {
      var below := VisitIsHeld(path, Layout(BROWSE_FILE_SYSTEM_ID), entries, vs[k]);
      HeldPathsNotEmpty(entries, below, vs[k].entry);
    }
  }

  lemma HeldPathsNotEmpty(entries: seq<FileEntry>, below: Path, entry: FileEntry)
    requires Holds(entries, below, entry)
    ensures below != []
  {
  }

  lemma ListedMeansIndexed(db: Db, p: Path)
    requires db == EMPTY || IsLibrary(db)
    ensures Knows(db, p) <==> Node(p) in Base(db)
  {
    hide IsLibrary, IndexOf;
    if db != EMPTY {
      PathsFound(db, p);
    }
  }

  /** The visits that call for the node of a path are of that entry of the tree. */
  lemma InTreeMeansVisited(path: Path, entries: seq<FileEntry>, p: Path)
    ensures var vs := AllVisits(path, entries);
            IsInTree(path, entries, p) <==> exists k :: 0 <= k < |vs| && vs[k].path == p && GetsObject(vs[k].entry)
  {
    hide Visits, Holds, GetsObject, ParentOf;
    var vs := AllVisits(path, entries);
    if below: Path, entry :| Holds(entries, below, entry) && GetsObject(entry) && p == path + below {
      HeldPathsNotEmpty(entries, below, entry);
      HeldIsVisited(path, Layout(BROWSE_FILE_SYSTEM_ID), entries, below, entry);
    }
    if k :| 0 <= k < |vs| && vs[k].path == p && GetsObject(vs[k].entry) {
      var below := VisitIsHeld(path, Layout(BROWSE_FILE_SYSTEM_ID), entries, vs[k]);
    }
  }

  /** After a complete scan and a prune the library lists exactly the existing paths that
      it listed before or that are in the tree. */
  lemma LibraryFollowsTree(db: Db, db': Db, path: Path, entries: seq<FileEntry>, exists': Path -> bool, p: Path)
    requires CanScan(db, path, entries) && IsRound(db, db', path, entries, exists', AllVisits(path, entries), true)
    ensures Knows(db', p) <==> exists'(p) && (Knows(db, p) || IsInTree(path, entries, p))
  {
    hide IsLibrary, IndexOf, Visits, Fold, Pruned, Knows, IsInTree, IsUnmodified, NamesDistinct, KnowsPaths,
         GetsObject, Base;
    LibraryKnowsPaths(db);
    VisitedPathsNotEmpty(path, entries);
    ListedMeansIndexed(db, p);
    ListedInLibrary(db', p);
    InTreeMeansVisited(path, entries, p);
    ScanAndPruneMatchTree(Base(db), AllVisits(path, entries), exists', p);
  }

  lemma ListedInLibrary(db: Db, p: Path)
    requires IsLibrary(db)
    ensures Knows(db, p) <==> Node(p) in IndexOf(db)
  {
    hide IsLibrary, IndexOf;
    PathsFound(db, p);
  }

  // ----- Scans that are cut short, and scans that are repeated -----

  ghost predicate IsSomeRound(db: Db, db': Db, path: Path, entries: seq<FileEntry>, exists': Path -> bool) {
    exists seen: seq<Visit>, pruned :: IsRound(db, db', path, entries, exists', seen, pruned)
  }

  /** Each of these databases comes from the one before by a scan of the same tree that
      may have been cancelled, and a prune that may have been left out. */
  ghost predicate AreRounds(dbs: seq<Db>, path: Path, entries: seq<FileEntry>, exists': Path -> bool) {
    && dbs != []
    && (dbs[0] == EMPTY || IsLibrary(dbs[0]))
    && forall j, k :: 0 <= j && k == j + 1 < |dbs| ==> IsSomeRound(dbs[j], dbs[k], path, entries, exists')
  }

  /** The index that a complete scan and a prune will give. */
  ghost function Outcome(db: Db, path: Path, entries: seq<FileEntry>, exists': Path -> bool): Index {
    Pruned(Fold(Base(db), AllVisits(path, entries)), exists')
  }

  lemma LibraryIsNotEmpty(db: Db)
    requires IsLibrary(db)
    ensures db != EMPTY
  {
    hide IsSound;
    LibraryIsSound(db);
    if db == EMPTY {
      LayoutObject(db, 0);
    }
  }

  lemma RoundKeepsOutcome(db: Db, db': Db, path: Path, entries: seq<FileEntry>, exists': Path -> bool)
    requires (db == EMPTY || IsLibrary(db)) && AllExist(AllVisits(path, entries), exists')
    requires IsSomeRound(db, db', path, entries, exists')
    ensures IsLibrary(db') && Outcome(db', path, entries, exists') == Outcome(db, path, entries, exists')
  {
    hide IsLibrary, IndexOf, Visits, Fold, Pruned, KnowsPaths, AllExist;
    var seen, pruned :| IsRound(db, db', path, entries, exists', seen, pruned);
    var all, scanned := AllVisits(path, entries), Fold(Base(db), seen);
    LibraryIsNotEmpty(db');
    LibraryKnowsPaths(db);
    VisitedPathsNotEmpty(path, entries);
    assert seen == all[..|seen|];
    ResumedScan(Base(db), all, |seen|);
    if pruned {
      FoldKnowsPaths(Base(db), seen);
      PrunedFold(scanned, all, exists');
      PrunedTwice(Fold(scanned, all), exists');
    }
  }

  /** Cancelled scans, with or without prunes, change nothing about what a complete scan
      and a prune will give. */
  lemma {:induction false} RoundsKeepOutcome(dbs: seq<Db>, path: Path, entries: seq<FileEntry>, exists': Path -> bool)
    requires AreRounds(dbs, path, entries, exists') && AllExist(AllVisits(path, entries), exists')
    ensures var last := dbs[|dbs| - 1];
            && (last == EMPTY || IsLibrary(last))
            && Outcome(last, path, entries, exists') == Outcome(dbs[0], path, entries, exists')
  {
    hide IsLibrary, Outcome, Visits, AllExist, IsSomeRound;
    var n := |dbs| - 1;
    if n > 0 {
      assert AreRounds(dbs[..n], path, entries, exists');
      RoundsKeepOutcome(dbs[..n], path, entries, exists');
      RoundKeepsOutcome(dbs[n - 1], dbs[n], path, entries, exists');
    }
  }

  /** However often a scan was cancelled, and whatever was pruned in between, once it is
      completed and pruned the library is the one that an uninterrupted scan and a prune
      make, up to row ids. */
  lemma ResumedScanMatchesWhole(dbs: seq<Db>, whole: Db, path: Path, entries: seq<FileEntry>, exists': Path -> bool)
    returns (to: map<int, int>)
    requires AreRounds(dbs, path, entries, exists') && |dbs| > 1 && AllExist(AllVisits(path, entries), exists')
    requires IsRound(dbs[|dbs| - 2], dbs[|dbs| - 1], path, entries, exists', AllVisits(path, entries), true)
    requires IsRound(dbs[0], whole, path, entries, exists', AllVisits(path, entries), true)
    ensures IsRenaming(dbs[|dbs| - 1], whole, to)
  {
    hide Core, Shape, IndexOf, Visits, Fold, Pruned, AllExist, IsSomeRound;
    var n := |dbs| - 1;
    assert AreRounds(dbs[..n], path, entries, exists');
    RoundsKeepOutcome(dbs[..n], path, entries, exists');
    to := SameIndexSameLibrary(dbs[n], whole);
  }

  /** A scan that is not pruned is a round in which nothing is missing; so all this holds
      for scans without prunes too. */
  lemma ScanIsRound(db: Db, db': Db, path: Path, entries: seq<FileEntry>, seen: seq<Visit>)
    requires IsScan(db, db', path, entries, seen)
    ensures IsRound(db, db', path, entries, _ => true, seen, true)
    ensures AllExist(AllVisits(path, entries), _ => true)
  {
    hide IsLibrary, IndexOf, Visits, Fold, Extends, Base;
    VisitedPathsNotEmpty(path, entries);
    var idx := Fold(Base(db), seen);
    assert forall i :: i in idx ==> i in Pruned(idx, _ => true);
    assert Pruned(idx, _ => true) == idx;
  }

  /** A scan that is repeated finds everything unmodified. */
  lemma RescanFindsUnmodified(db: Db, db': Db, path: Path, entries: seq<FileEntry>, seen: seq<Visit>)
    requires CanScan(db, path, entries) && IsScan(db, db', path, entries, seen)
    ensures CanScan(db', path, entries)
  {
    hide IsLibrary, IndexOf, Visits, Fold, Extends, IsUnmodified, PathsDistinct, NamesDistinct;
    var all := AllVisits(path, entries);
    NamesMakePathsDistinct(path, Layout(BROWSE_FILE_SYSTEM_ID), entries);
    LayoutUnmodified(all);
    assert seen == all[..|seen|];
    ScanStaysUnmodified(Base(db), all, |seen|);
  }

  /** Scanning an unchanged tree again, even in part, changes neither table. */
  lemma RescanChangesNothing(db: Db, once: Db, again: Db, path: Path, entries: seq<FileEntry>, seen: seq<Visit>)
    requires IsScan(db, once, path, entries, AllVisits(path, entries)) && IsScan(once, again, path, entries, seen)
    ensures SameTable(once.objects, again.objects) && SameTable(once.metadata, again.metadata)
  {
    hide Core, Shape, IndexOf, Visits, Fold, Extends, IsSettled;
    LibraryIsNotEmpty(once);
    var all := AllVisits(path, entries);
    FoldSettles(Base(db), all);
    assert forall v :: v in seen ==> v in all;
    SettledFoldsToItself(IndexOf(once), seen);
    SameIndexSameTables(once, again);
  }

  // ----- The library and the tree -----

  lemma FullScanIndexesTree(db: Db, path: Path, entries: seq<FileEntry>)
    requires NamesDistinct(entries) && IsScan(EMPTY, db, path, entries, AllVisits(path, entries))
    ensures Describes(IndexOf(db), AllVisits(path, entries))
  {
    hide IsLibrary, IndexOf, Visits, Fold, Extends, PathsDistinct, Describes, NamesDistinct;
    NamesMakePathsDistinct(path, Layout(BROWSE_FILE_SYSTEM_ID), entries);
    FullScanDescribesTree(AllVisits(path, entries));
  }

  /** A column holds a text; nothing is stored for an empty one. */
  ghost predicate Stores(column: Option<string>, text: string) {
    if text == "" then column == None else column == Some(text)
  }

  /** The columns that come from the tags of a song, or are empty without tags. */
  ghost predicate HasTagsOf(content: Content, tags: Option<Tags>) {
    match tags
    case None =>
      && content.title == content.artist == content.album == content.albumArtist == content.genre == None
      && content.thumbnail == None && content.audio == AudioProperties(0, 0, 0, 0)
    case Some(t) =>
      && Stores(content.title, t.title) && Stores(content.artist, t.artist) && Stores(content.album, t.album)
      && Stores(content.albumArtist, t.albumArtist) && Stores(content.genre, t.genre)
      && Stores(content.thumbnail, t.thumbnail) && content.audio == t.audio
  }

  /** What is stored for a file: where it is and what it was when it was read, a mime type
      of the group that its class says, and the tags if it is a song. */
  ghost predicate IsFileContent(content: Content, path: Path, entry: FileEntry, upnpClass: UpnpClass)
    requires entry.RegularFile?
  {
    && content.filePath == Some(path) && content.fileSize == entry.size && content.modifiedTime == entry.modifyTime
    && content.mimeType.Some?
    && (upnpClass == AudioItem || upnpClass == VideoItem || upnpClass == ImageItem)
    && (upnpClass == VideoItem <==> "video/" <= content.mimeType.value)
    && (upnpClass == ImageItem <==> "image/" <= content.mimeType.value)
    && (upnpClass == AudioItem <==> "audio/" <= content.mimeType.value || content.mimeType.value == "application/ogg")
    && HasTagsOf(content, if upnpClass == AudioItem then entry.tags else None)
  }

  ghost predicate IsDirectoryContent(content: Content, path: Path, entry: FileEntry)
    requires entry.Directory?
  {
    && content.filePath == Some(path) && content.fileSize == content.modifiedTime == 0 && content.mimeType == None
    && Stores(content.title, entry.name) && Stores(content.thumbnail, entry.thumbnail)
    && content.artist == content.album == content.albumArtist == content.genre == None
    && content.audio == AudioProperties(0, 0, 0, 0)
  }

  /** What is stored for an album: its name and artist, and the genre and cover of a song. */
  ghost predicate IsAlbumContent(content: Content, t: Tags) {
    && content.filePath == None && content.fileSize == content.modifiedTime == 0 && content.mimeType == None
    && Stores(content.title, t.album) && Stores(content.artist, t.albumArtist)
    && Stores(content.genre, t.genre) && Stores(content.thumbnail, t.thumbnail)
    && content.album == content.albumArtist == None && content.audio == AudioProperties(0, 0, 0, 0)
  }

  lemma FileContent(v: Visit)
    requires IsIndexed(v) && v.path != []
    ensures IsFileContent(ContentOf(FileMetadata(v)), v.path, v.entry, ClassOfFile(v.entry.name).value)
  {
    MimeTellsClass(v.entry.name);
    hide ClassOfFile, MimeTypeOfFile;
    FileTags(v);
  }

  lemma FileTags(v: Visit)
    requires v.entry.RegularFile?
    ensures HasTagsOf(ContentOf(FileMetadata(v)), TagsOf(v))
  {
    hide ClassOfFile, MimeTypeOfFile;
  }

  lemma MimeTellsClass(name: string)
    requires ClassOfFile(name).Some?
    ensures var upnpClass, text := ClassOfFile(name).value, MimeTypeOfFile(name);
            && text != ""
            && (upnpClass == AudioItem || upnpClass == VideoItem || upnpClass == ImageItem)
            && (upnpClass == VideoItem <==> "video/" <= text)
            && (upnpClass == ImageItem <==> "image/" <= text)
            && (upnpClass == AudioItem <==> "audio/" <= text || text == "application/ogg")
  {
    hide Mime.TypeFromFile, Mime.ToString;
    Mime.TextTellsGroup(name, Mime.AudioGroup);
    Mime.TextTellsGroup(name, Mime.VideoGroup);
    Mime.TextTellsGroup(name, Mime.ImageGroup);
  }

  lemma DirectoryContent(v: Visit)
    requires v.entry.Directory? && v.path != []
    ensures IsDirectoryContent(ContentOf(DirectoryMetadata(v)), v.path, v.entry)
  {
  }

  /** After a full scan every directory and every playable file of the tree has an
      object, and it hangs under the object of its directory. */
  lemma EntryHasObject(db: Db, path: Path, entries: seq<FileEntry>, below: Path, entry: FileEntry) returns (id: int)
    requires NamesDistinct(entries) && IsScan(EMPTY, db, path, entries, AllVisits(path, entries))
    requires Holds(entries, below, entry) && GetsObject(entry)
    ensures id in db.objects.rows && IdentOf(db, id) == Node(path + below)
    ensures IdentOf(db, db.objects.rows[id].parentId) == ParentOf(path, Layout(BROWSE_FILE_SYSTEM_ID), below)
    ensures db.objects.rows[id].name == entry.name
    ensures db.objects.rows[id].upnpClass == if entry.Directory? then Container else ClassOfFile(entry.name).value
    ensures db.ContentAt(id).Some?
    ensures entry.Directory? ==> IsDirectoryContent(db.ContentAt(id).value, path + below, entry)
    ensures entry.RegularFile? ==>
              IsFileContent(db.ContentAt(id).value, path + below, entry, db.objects.rows[id].upnpClass)
  {
    hide Core, Shape, IndexOf, Visits, Fold, Extends, IdentOf, EntryOf, ClassOfFile, NamesDistinct, ParentOf;
    FullScanIndexesTree(db, path, entries);
    HeldIsVisited(path, Layout(BROWSE_FILE_SYSTEM_ID), entries, below, entry);
    var vs, parent := AllVisits(path, entries), ParentOf(path, Layout(BROWSE_FILE_SYSTEM_ID), below);
    var v := Visit(path + below, parent, entry);
    var k: nat :| k < |vs| && vs[k] == v;
    NamesMakePathsDistinct(path, Layout(BROWSE_FILE_SYSTEM_ID), entries);
    OnlyCallForNode(vs, k);
    hide IsFirstCall, IsFileContent, IsDirectoryContent;
    id := ObjectOf(db, Node(v.path));
    RowOfEntry(db, id);
    HeldPathsNotEmpty(entries, below, entry);
    if entry.Directory? {
      DirectoryContent(v);
    } else {
      FileContent(v);
    }
  }

  /** The fixed containers of every library. */
  lemma FixedContainersNamed(db: Db, id: int)
    requires IsLibrary(db) && 0 <= id < 4
    ensures id in db.objects.rows && db.ContentAt(id).Some?
    ensures var row, content := db.objects.rows[id], db.ContentAt(id).value;
            && row.name == (if id == 0 then "Doozy" else if id == 1 then "Music" else if id == 2 then "Albums"
                            else "Browse filesystem")
            && row.upnpClass == (if id == 3 then StorageFolder else Container)
            && (id > 0 ==> row.parentId == if id == 2 then 1 else 0)
            && content.title == Some(row.name) && content.filePath == None && content.mimeType == None
  {
    hide Linked, Injective, PathsUnique, AllReferenced, IndexOf, WellPlaced, IdentOf, EntryOf;
    LayoutObject(db, id);
    IndexHas(db, id);
    RowOfEntry(db, id);
    if id > 0 {
      var parentId := if id == 2 then 1 else 0;
      assert LAYOUT[Layout(id)].parent == Layout(parentId);
      LayoutIdents(db, db.objects.rows[id].parentId, parentId);
    }
  }

  /** After a full scan a song whose tags name an album has a second object, below the
      album of that name and artist, with the same content. */
  lemma SongHasCopy(db: Db, path: Path, entries: seq<FileEntry>, below: Path, entry: FileEntry)
    returns (copy: int, album: int)
    requires NamesDistinct(entries) && IsScan(EMPTY, db, path, entries, AllVisits(path, entries))
    requires Holds(entries, below, entry) && entry.RegularFile? && ClassOfFile(entry.name) == Some(AudioItem)
    requires entry.tags.Some? && entry.tags.value.album != ""
    ensures copy in db.objects.rows && db.objects.rows[copy].parentId == album && album in db.objects.rows
    ensures db.objects.rows[copy].upnpClass == AudioItem && db.ContentAt(copy).Some?
    ensures IsFileContent(db.ContentAt(copy).value, path + below, entry, AudioItem)
    ensures db.objects.rows[album].upnpClass == MusicAlbum && db.objects.rows[album].name == entry.tags.value.album
    ensures db.ContentAt(album).Some? && Stores(db.ContentAt(album).value.artist, entry.tags.value.albumArtist)
  {
    hide Core, Shape, Visits, IndexOf, Fold, Extends, IdentOf, ClassOfFile, NamesDistinct, ParentOf, Holds;
    var id := EntryHasObject(db, path, entries, below, entry);
    SongIsTagged(db, id, path + below, entry);
    copy := SongsAreListed(db, id);
    album := db.objects.rows[copy].parentId;
  }

  lemma SongIsTagged(db: Db, id: int, path: Path, entry: FileEntry)
    requires id in db.objects.rows && IdentOf(db, id).Node? && db.objects.rows[id].upnpClass == AudioItem
    requires entry.RegularFile? && entry.tags.Some? && entry.tags.value.album != ""
    requires db.ContentAt(id).Some? && IsFileContent(db.ContentAt(id).value, path, entry, AudioItem)
    ensures IsTaggedSong(db, id)
  {
    hide IdentOf;
  }

  /** After a full scan an album has the name and artist that songs of the tree give, and
      the genre and cover of the first of them. */
  lemma AlbumHasContent(db: Db, path: Path, entries: seq<FileEntry>, id: int) returns (song: Visit)
    requires NamesDistinct(entries) && IsScan(EMPTY, db, path, entries, AllVisits(path, entries))
    requires id in db.objects.rows && db.objects.rows[id].upnpClass == MusicAlbum
    ensures song in AllVisits(path, entries) && song.entry.RegularFile? && song.entry.tags.Some?
    ensures db.ContentAt(id).Some? && IsAlbumContent(db.ContentAt(id).value, song.entry.tags.value)
    ensures db.objects.rows[id].name == song.entry.tags.value.album != "" && db.objects.rows[id].parentId == ALBUMS_ID
  {
    hide Shape, Injective, PathsUnique, AllReferenced, IndexOf, Visits, Fold, Extends, ClassOfFile, NamesDistinct,
         MimeTypeOfFile;
    FullScanIndexesTree(db, path, entries);
    var i, vs := IdentOf(db, id), AllVisits(path, entries);
    AlbumsByClass(db, id);
    IndexHas(db, id);
    RowOfEntry(db, id);
    hide Linked, IdentOf, EntryOf;
    var k: nat :| IsFirstCall(vs, k, i);
    song := vs[k];
    AlbumContent(song, i);
    AlbumsObject(db, id);
  }

  lemma AlbumContent(v: Visit, i: Ident)
    requires CallsFor(v, i) && i.Album?
    ensures v.entry.RegularFile? && v.entry.tags.Some? && v.entry.tags.value.album != ""
    ensures var e := CalledFor(v, i);
            && IsAlbumContent(e.content, v.entry.tags.value)
            && e.name == v.entry.tags.value.album && e.parent == Layout(ALBUMS_ID)
  {
    hide ClassOfFile, MimeTypeOfFile;
  }

  /** What hangs under the albums container refers to its id. */
  lemma AlbumsObject(db: Db, id: int)
    requires IsLibrary(db) && id in db.objects.rows
    requires IdentOf(db, db.objects.rows[id].parentId) == Layout(ALBUMS_ID)
    ensures db.objects.rows[id].parentId == ALBUMS_ID
  {
    hide Core, Shape, IdentFor;
    LayoutIdents(db, db.objects.rows[id].parentId, ALBUMS_ID);
  }

  lemma OnlyCallForNode(vs: seq<Visit>, k: nat)
    requires PathsDistinct(vs) && k < |vs| && GetsObject(vs[k].entry)
    ensures IsFirstCall(vs, k, Node(vs[k].path))
    ensures var e := CalledFor(vs[k], Node(vs[k].path)); var v := vs[k];
            && e.parent == v.parent && e.name == v.entry.name
            && e.upnpClass == (if v.entry.Directory? then Container else ClassOfFile(v.entry.name).value)
            && e.content == ContentOf(if v.entry.Directory? then DirectoryMetadata(v) else FileMetadata(v))
  {
    hide ClassOfFile;
  }

  lemma RowOfEntry(db: Db, id: int)
    requires Core(db) && id in db.objects.rows
    ensures var row, e := db.objects.rows[id], EntryOf(db, id);
            && e.name == row.name && e.upnpClass == row.upnpClass && e.parent == IdentOf(db, row.parentId)
            && db.ContentAt(id) == Some(e.content)
  {
    hide IdentOf, IndexOf, Injective, PathsUnique, AllReferenced;
    assert LinkedRow(db, id, db.objects.rows[id]);
  }

  /** After a full scan every object with a path stands for an entry of the tree. */
  lemma ObjectHasEntry(db: Db, path: Path, entries: seq<FileEntry>, id: int, p: Path)
    returns (below: Path, entry: FileEntry)
    requires NamesDistinct(entries) && IsScan(EMPTY, db, path, entries, AllVisits(path, entries))
    requires db.HasPath(id, p)
    ensures Holds(entries, below, entry) && GetsObject(entry) && p == path + below
  {
    hide Core, Shape, IndexOf, Visits, Fold, Extends, IdentOf, ClassOfFile, Holds, NamesDistinct, Db.HasPath;
    FullScanIndexesTree(db, path, entries);
    ObjectWithPath(db, id, p);
    var vs := AllVisits(path, entries);
    var k: nat :| IsFirstCall(vs, k, Node(p));
    below := VisitIsHeld(path, Layout(BROWSE_FILE_SYSTEM_ID), entries, vs[k]);
    entry := vs[k].entry;
  }

  // ----- Modified files -----

  /** The metadata after the buffer with one file was flushed. */
  lemma OneFileFlushed(db: Db, files: Buffer, meta: LibraryMetadata)
    requires Linked(db) && HasOneMore([], files, meta)
    ensures var db', m := InsertAll(db, files), db.metadata.NextId();
            && db'.metadata == db.metadata.Insert(ContentOf(meta))
            && m !in db.metadata.rows && forall k :: k in db.metadata.rows ==> k < m
  {
    var items, content := files[0].0, ContentOf(meta);
    InsertKeepsValid(db.metadata, content);
    GroupRefersTo(db.InsertMetadata(content), items, db.metadata.NextId());
    assert files[..0] == [] && InsertAll(db, []) == db;
  }

  /** What a file does to a library whose status was asked for: if its path is indexed and
      the file was modified since, its path gets a second row of metadata, and the file
      still counts as modified; otherwise paths stay unique. */
  lemma PathsStayUniqueExactly(db: Db, files: Buffer, v: Visit, status: ItemStatus)
    requires IsLibrary(db) && IsIndexed(v) && v.path != [] && db.HasStatus(v.path, v.entry.modifyTime, status)
    requires if status == UpToDate then files == [] else HasOneMore([], files, FileMetadata(v))
    ensures var idx, db' := IndexOf(db), InsertAll(db, files);
            && (PathsUnique(db') <==>
                !(Node(v.path) in idx && idx[Node(v.path)].content.modifiedTime < v.entry.modifyTime))
            && (status == NeedsUpdate ==> db'.HasStatus(v.path, v.entry.modifyTime, NeedsUpdate))
  {
    hide Linked, Injective, AllReferenced, IndexOf, Shape, ClassOfFile, MimeTypeOfFile, InsertAll, FileMetadata,
         PathsUnique;
    StatusTells(db, v, status);
    if status == UpToDate {
      NothingToFlush(db);
    } else {
      var db' := InsertAll(db, files);
      OneFileFlushed(db, files, FileMetadata(v));
      PathOfMetadata(v);
      PathOfContent(FileMetadata(v));
      OneMoreRow(db, db', ContentOf(FileMetadata(v)), v.path);
      if status == NeedsUpdate {
        StaysOlder(db, db', ContentOf(FileMetadata(v)), v.path, v.entry.modifyTime);
      }
    }
  }

  lemma OneMoreRow(db: Db, db': Db, content: Content, path: Path)
    requires PathsUnique(db) && content.filePath == Some(path)
    requires db'.metadata == db.metadata.Insert(content) && db.metadata.NextId() !in db.metadata.rows
    ensures PathsUnique(db') <==> NewPath(db, path)
  {
    var id := db.metadata.NextId();
    if m :| m in db.metadata.rows && db.metadata.rows[m].filePath == Some(path) {
      assert m != id && db'.metadata.rows[m].filePath == db'.metadata.rows[id].filePath;
    }
  }

  lemma StaysOlder(db: Db, db': Db, content: Content, path: Path, time: nat)
    requires db.HasStatus(path, time, NeedsUpdate) && db'.metadata == db.metadata.Insert(content)
    requires forall k :: k in db.metadata.rows ==> k < db.metadata.NextId()
    ensures db'.HasStatus(path, time, NeedsUpdate)
  {
    var m :| db.IsFirstRow(path, m) && db.metadata.rows[m].modifiedTime < time;
    forall k | db'.IsRowOf(k, path)
      ensures m <= k
    {
      assert k in db.metadata.rows ==> db.IsRowOf(k, path);
    }
    assert db'.IsFirstRow(path, m);
  }

  // A library with one song, which was indexed at time 1 and modified at time 2.

  const SONG: Path := ["a.mp3"]

  function SongVisit(time: nat): Visit {
    Visit(SONG, Layout(BROWSE_FILE_SYSTEM_ID), RegularFile("a.mp3", time, 0, None))
  }

  function SongBuffer(time: nat): Buffer {
    [([LibraryItem(0, BROWSE_FILE_SYSTEM_ID, 0, "a.mp3", AudioItem)], FileMetadata(SongVisit(time)))]
  }

  lemma SongIsAudio()
    ensures ClassOfFile("a.mp3") == Some(AudioItem)
  {
    var name := "a.mp3";
    assert name[..4] == "a.mp" && name[..4][..3] == "a.m" && name[..4][..3][..2] == "a.";
    assert Mime.FileExtension("a.") == "";
    assert Mime.FileExtension("a.m") == "m";
    assert Mime.FileExtension("a.mp") == "mp";
    assert Mime.FileExtension(name) == "mp3";
    assert Mime.Lowercase("mp3") == "mp3";
  }

  lemma SongIsTakenIn(db: Db)
    requires HasLayout(db, 4)
    ensures var db' := InsertAll(db, SongBuffer(1));
            IsLibrary(db') && db'.HasStatus(SONG, 2, NeedsUpdate)
  {
    hide HasLayout, Linked, Injective, IndexOf, PathsUnique, AllReferenced, NewPath, WellPlaced, ClassOfFile,
         MimeTypeOfFile, IdentOf, FileIndex, FileFits, GroupIndex;
    var v, files := SongVisit(1), SongBuffer(1);
    LayoutIsLibrary(db);
    SongIsAudio();
    LayoutObject(db, BROWSE_FILE_SYSTEM_ID);
    FileItems(db, files[0].0, v);
    FileGoesToBuffer(db, files[0].0, v);
    assert IsBuffer(db, files, [v]);
    FlushAddsPending(db, files, [v]);
    OneFileFlushed(db, files, FileMetadata(v));
    SongIsOnlyRow(db, InsertAll(db, files));
  }

  lemma SongIsOnlyRow(db: Db, db': Db)
    requires NewPath(db, SONG) && db'.metadata == db.metadata.Insert(ContentOf(FileMetadata(SongVisit(1))))
    ensures db'.HasStatus(SONG, 2, NeedsUpdate)
  {
    hide ClassOfFile, MimeTypeOfFile;
    assert db'.IsFirstRow(SONG, db.metadata.NextId());
  }

  /** A modified song is indexed twice. */
  lemma ModifiedSongIsIndexedTwice(db: Db)
    requires HasLayout(db, 4)
    ensures var once := InsertAll(db, SongBuffer(1));
            IsLibrary(once) && once.HasStatus(SONG, 2, NeedsUpdate) && !PathsUnique(InsertAll(once, SongBuffer(2)))
  {
    hide HasLayout, IsLibrary, IndexOf, PathsUnique, ClassOfFile, MimeTypeOfFile, InsertAll, Db.HasStatus;
    SongIsTakenIn(db);
    SongIsAudio();
    StatusTells(InsertAll(db, SongBuffer(1)), SongVisit(2), NeedsUpdate);
    PathsStayUniqueExactly(InsertAll(db, SongBuffer(1)), SongBuffer(2), SongVisit(2), NeedsUpdate);
  }

  // ----- A prune cut short -----

  // The same library, with a song that names an album.

  const TAGS: Tags := Tags("", "", "b", "", "", "", NO_AUDIO)

  function TaggedVisit(): Visit {
    Visit(SONG, Layout(BROWSE_FILE_SYSTEM_ID), RegularFile("a.mp3", 1, 0, Some(TAGS)))
  }

  function AlbumAdded(db: Db): Db {
    WithItem(db, LibraryItem(0, ALBUMS_ID, 0, "b", MusicAlbum), AlbumMetadata(TAGS))
  }

  function TaggedItems(albumId: int): seq<LibraryItem> {
    [LibraryItem(0, albumId, 0, "a.mp3", AudioItem), LibraryItem(0, BROWSE_FILE_SYSTEM_ID, 0, "a.mp3", AudioItem)]
  }

  function SongLibrary(db: Db): Db {
    InsertAll(AlbumAdded(db), [(TaggedItems(db.objects.NextId()), FileMetadata(TaggedVisit()))])
  }

  lemma TaggedSongHasAlbum()
    ensures var v := TaggedVisit();
            IsIndexed(v) && HasAlbum(v) && TagsOf(v) == Some(TAGS) && ClassOfFile("a.mp3") == Some(AudioItem)
            && AlbumOf(v) == Album("b", None)
  {
    hide ClassOfFile;
    SongIsAudio();
  }

  lemma AlbumIsAdded(db: Db)
    requires HasLayout(db, 4)
    ensures var db' := AlbumAdded(db);
            && IsLibrary(db') && NewPath(db', SONG) && IndexOf(db') == WithAlbum(LAYOUT, TaggedVisit())
            && db.objects.NextId() in db'.objects.rows
            && HasAlbum(TaggedVisit()) && IdentOf(db', db.objects.NextId()) == AlbumOf(TaggedVisit())
  {
    hide HasLayout, IsLibrary, IndexOf, IdentOf, NewPath, HasAlbum, TagsOf, IsIndexed, TaggedVisit, WithAlbum;
    LayoutIsLibrary(db);
    TaggedSongHasAlbum();
    AlbumTakenIn(db, LibraryItem(0, ALBUMS_ID, 0, "b", MusicAlbum), TaggedVisit());
    NothingVisited();
  }

  lemma SongLibraryIsLibrary(db: Db)
    requires HasLayout(db, 4)
    ensures var db' := SongLibrary(db);
            && IsLibrary(db') && Node(SONG) in IndexOf(db') && IsIndexed(TaggedVisit())
            && IndexOf(db')[Node(SONG)] == FileEntryOf(TaggedVisit())
  {
    hide HasLayout, Linked, Injective, IndexOf, PathsUnique, AllReferenced, NewPath, WellPlaced, ClassOfFile,
         MimeTypeOfFile, IdentOf, FileIndex, FileFits, GroupIndex, HasAlbum, TagsOf, FileMetadata, AlbumAdded;
    var v, db1, items := TaggedVisit(), AlbumAdded(db), TaggedItems(db.objects.NextId());
    AlbumIsAdded(db);
    TaggedSongHasAlbum();
    LayoutObject(db1, BROWSE_FILE_SYSTEM_ID);
    FileItems(db1, items, v);
    FileGoesToBuffer(db1, items, v);
    var files := [(items, FileMetadata(v))];
    assert IsBuffer(db1, files, [v]);
    FlushAddsPending(db1, files, [v]);
    PendingOne(v);
    FileIndexHasNode(v);
  }

  lemma PendingOne(v: Visit)
    requires IsIndexed(v)
    ensures Pending([v]) == FileIndex(v)
  {
    hide IsIndexed, FileIndex;
    assert [v][..0] == [];
    assert map[] + FileIndex(v) == FileIndex(v);
  }

  lemma FileIndexHasNode(v: Visit)
    requires IsIndexed(v)
    ensures Node(v.path) in FileIndex(v) && FileIndex(v)[Node(v.path)] == FileEntryOf(v)
  {
    hide IsIndexed, HasAlbum, SongEntry, FileEntryOf;
  }

  lemma SongInLibrary(db: Db) returns (id: int)
    requires HasLayout(db, 4)
    ensures var db' := SongLibrary(db); IsLibrary(db') && IsTaggedSong(db', id) && db'.HasPath(id, SONG)
  {
    hide HasLayout, Core, Shape, IndexOf, IdentOf, EntryOf, ClassOfFile, MimeTypeOfFile, IsIndexed, SongLibrary;
    var db' := SongLibrary(db);
    SongLibraryIsLibrary(db);
    id := ObjectOf(db', Node(SONG));
    CoreIsLinked(db');
    NodeHasPath(db', id, SONG);
    EntryHasContent(db', id);
    TaggedSongHasAlbum();
    AlbumTag(TaggedVisit());
    PathOfContent(FileMetadata(TaggedVisit()));
  }

  /** A prune of that song can be cut so that no later one removes it. */
  lemma DeletedSongIsStranded(db: Db, exists': Path -> bool) returns (cut: Db, stranded: int)
    requires HasLayout(db, 4) && !exists'(SONG)
    ensures IsCut(SongLibrary(db), cut, exists') && IsStrandedFile(SongLibrary(db), cut, stranded, exists')
  {
    hide HasLayout, IsLibrary, IsTaggedSong, SongLibrary, IsCut, IsStrandedFile;
    var id := SongInLibrary(db);
    cut, stranded := SongIsStranded(SongLibrary(db), exists', id);
  }
}
