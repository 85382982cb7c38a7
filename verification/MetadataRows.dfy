/** How many rows of metadata a path gets, on any sound database: a file that was
    modified since it was indexed gets one more at every scan. */
module MetadataRows {
  import opened Basics
  import opened MusicDatabase
  import opened LibraryIndex
  import opened LibraryTree
  import opened LibrarySoundness
  import opened ScanProgress
  import opened ScanSteps

  // ----- Rows of a path -----

  ghost function RowsOf(db: Db, path: Path): set<int> {
    set m | m in db.metadata.rows && db.IsRowOf(m, path)
  }

  /** An entry brings a row for its path: a directory that has no object, a file of a
      playable kind that is not up to date. */
  ghost predicate BringsRow(db: Db, v: Visit) {
    if v.entry.Directory? then forall id :: !db.HasPath(id, v.path)
    else IsIndexed(v) && !db.HasStatus(v.path, v.entry.modifyTime, UpToDate)
  }

  /** The entries with this path that bring a row. */
  ghost function CountBringing(db: Db, vs: seq<Visit>, path: Path): nat {
    if vs == [] then 0
    else
      var v := vs[|vs| - 1];
      CountBringing(db, vs[..|vs| - 1], path) + (if v.path == path && BringsRow(db, v) then 1 else 0)
  }

  /** The files with this path in a buffer. */
  ghost function CountWaiting(files: Buffer, path: Path): nat {
    if files == [] then 0
    else CountWaiting(files[..|files| - 1], path) + (if files[|files| - 1].1.path == path then 1 else 0)
  }

  /** New objects refer to new rows. */
  ghost predicate HasOwnRows(db: Db, db': Db) {
    forall id :: id in db'.objects.rows && id !in db.objects.rows ==>
      db'.objects.rows[id].metaData !in db.metadata.rows
  }

  /** Rows are only added, and each path gets, in the database or in the buffer, a row for
      each entry that brings one. */
  ghost predicate RowsFollow(start: Db, db: Db, files: Buffer, seen: seq<Visit>) {
    && Extends(start, db)
    && HasOwnRows(start, db)
    && forall path ::
         |RowsOf(db, path)| + CountWaiting(files, path) == |RowsOf(start, path)| + CountBringing(start, seen, path)
  }

  // ----- First rows -----

  lemma AscendingPrefix(ids: seq<int>, ids': seq<int>, m: int, k: int)
    requires ids <= ids' && Ascending(ids') && m in ids && k in ids' && k !in ids
    ensures m < k
  {
    var i: nat :| i < |ids| && ids[i] == m;
    var j: nat :| j < |ids'| && ids'[j] == k;
    assert forall n :: 0 <= n < |ids| ==> ids'[n] == ids[n] && ids[n] in ids;
  }

  /** The first row of a path stays the first one. */
  lemma FirstRowStays(db: Db, db': Db, path: Path, m: int)
    requires db.Valid() && db'.Valid() && Extends(db, db') && db.IsFirstRow(path, m)
    ensures db'.IsFirstRow(path, m) && db'.metadata.rows[m] == db.metadata.rows[m]
  {
    forall k | db'.IsRowOf(k, path)
      ensures m <= k
    {
      if k in db.metadata.rows {
        assert db.IsRowOf(k, path);
      } else {
        AscendingPrefix(db.metadata.ids, db'.metadata.ids, m, k);
      }
    }
  }

  /** A path has one status. */
  lemma StatusUnique(db: Db, path: Path, time: nat, status: ItemStatus, status': ItemStatus)
    requires db.HasStatus(path, time, status) && db.HasStatus(path, time, status')
    ensures status == status'
  {
  }

  // ----- What an entry brings depends on the rows of its path -----

  lemma SubsetOfSize(a: set<int>, b: set<int>)
    requires a <= b && |a| == |b|
    ensures a == b
  {
    assert b == a + (b - a);
  }

  lemma RowsGrow(db: Db, db': Db, path: Path)
    requires Extends(db, db')
    ensures RowsOf(db, path) <= RowsOf(db', path)
  {
    hide Ascending;
    forall m | m in RowsOf(db, path)
      ensures m in RowsOf(db', path)
    {
      assert db'.IsRowOf(m, path);
    }
  }

  lemma SameRowsSameStatus(db: Db, db': Db, path: Path, time: nat)
    requires Extends(db, db') && RowsOf(db', path) == RowsOf(db, path)
    ensures db'.HasStatus(path, time, UpToDate) <==> db.HasStatus(path, time, UpToDate)
  {
    assert forall m :: m in RowsOf(db, path) <==> db.IsRowOf(m, path);
    assert forall m :: m in RowsOf(db', path) <==> db'.IsRowOf(m, path);
    hide RowsOf, Db.IsRowOf;
    assert forall m :: db'.IsRowOf(m, path) <==> db.IsRowOf(m, path);
    assert forall m :: db'.IsFirstRow(path, m) <==> db.IsFirstRow(path, m);
    assert forall m :: db.IsRowOf(m, path) ==> m in db.metadata.rows by { RowsAreRows(db, path); }
  }

  lemma RowsAreRows(db: Db, path: Path)
    ensures forall m :: db.IsRowOf(m, path) ==> m in db.metadata.rows
  {
  }

  lemma SameRowsSameObjects(db: Db, db': Db, path: Path)
    requires Extends(db, db') && HasOwnRows(db, db') && RowsOf(db', path) == RowsOf(db, path)
    ensures (exists id :: db'.HasPath(id, path)) <==> (exists id :: db.HasPath(id, path))
  {
    if id :| db.HasPath(id, path) {
      assert db'.HasPath(id, path);
    }
    if id :| db'.HasPath(id, path) {
      assert db'.objects.rows[id].metaData in RowsOf(db', path);
      assert db.HasPath(id, path);
    }
  }

  lemma BringsAsBefore(start: Db, db: Db, files: Buffer, seen: seq<Visit>, v: Visit)
    requires RowsFollow(start, db, files, seen) && IsUnvisited(seen, v.path)
    ensures BringsRow(db, v) <==> BringsRow(start, v)
    ensures CountWaiting(files, v.path) == 0
  {
    NothingBrought(start, seen, v.path);
    RowsGrow(start, db, v.path);
    SizeOfSubset(RowsOf(start, v.path), RowsOf(db, v.path));
    SubsetOfSize(RowsOf(start, v.path), RowsOf(db, v.path));
    SameRowsSameStatus(start, db, v.path, if v.entry.RegularFile? then v.entry.modifyTime else 0);
    SameRowsSameObjects(start, db, v.path);
    hide RowsOf, Extends, HasOwnRows, Db.HasStatus, Db.HasPath;
  }

  lemma SizeOfSubset(a: set<int>, b: set<int>)
    requires a <= b
    ensures |a| <= |b|
  {
    assert b == a + (b - a);
  }

  lemma {:induction false} NothingBrought(db: Db, vs: seq<Visit>, path: Path)
    requires IsUnvisited(vs, path)
    ensures CountBringing(db, vs, path) == 0
  {
    hide BringsRow;
    if vs != [] {
      NothingBrought(db, vs[..|vs| - 1], path);
    }
  }

  lemma {:induction false} CountBringingConcat(db: Db, vs: seq<Visit>, ws: seq<Visit>, path: Path)
    ensures CountBringing(db, vs + ws, path) == CountBringing(db, vs, path) + CountBringing(db, ws, path)
  {
    hide BringsRow;
    if ws == [] {
      assert vs + ws == vs;
    } else {
      var n := |ws| - 1;
      CountBringingConcat(db, vs, ws[..n], path);
      assert (vs + ws)[..|vs| + n] == vs + ws[..n];
    }
  }

  lemma {:induction false} SameBringing(start: Db, db: Db, vs: seq<Visit>, path: Path)
    requires forall k :: 0 <= k < |vs| ==> (BringsRow(db, vs[k]) <==> BringsRow(start, vs[k]))
    ensures CountBringing(db, vs, path) == CountBringing(start, vs, path)
  {
    hide BringsRow;
    if vs != [] {
      SameBringing(start, db, vs[..|vs| - 1], path);
    }
  }

  // ----- Steps -----

  lemma OwnRowsTransitive(a: Db, b: Db, c: Db)
    requires Extends(a, b) && Extends(b, c) && HasOwnRows(a, b) && HasOwnRows(b, c)
    ensures HasOwnRows(a, c)
  {
  }

  /** The database takes in further visits while files wait. */
  lemma RowsFollowOn(start: Db, db: Db, db': Db, files: Buffer, seen: seq<Visit>, vs: seq<Visit>)
    requires RowsFollow(start, db, files, seen) && RowsFollow(db, db', [], vs) && PathsDistinct(seen + vs)
    ensures RowsFollow(start, db', files, seen + vs)
  {
    hide RowsOf, Extends, HasOwnRows, BringsRow, CountBringing;
    ExtendsTransitive(start, db, db');
    OwnRowsTransitive(start, db, db');
    forall k | 0 <= k < |vs|
      ensures BringsRow(db, vs[k]) <==> BringsRow(start, vs[k])
    {
      UnvisitedBefore(seen, vs, k);
      BringsAsBefore(start, db, files, seen, vs[k]);
    }
    forall path
      ensures |RowsOf(db', path)| + CountWaiting(files, path) ==
              |RowsOf(start, path)| + CountBringing(start, seen + vs, path)
    {
      SameBringing(start, db, vs, path);
      CountBringingConcat(start, seen, vs, path);
      assert CountWaiting([], path) == 0;
    }
  }

  lemma UnvisitedBefore(seen: seq<Visit>, vs: seq<Visit>, k: nat)
    requires PathsDistinct(seen + vs) && k < |vs|
    ensures IsUnvisited(seen, vs[k].path)
  {
    forall j | 0 <= j < |seen|
      ensures seen[j].path != vs[k].path
    {
      assert (seen + vs)[j] == seen[j] && (seen + vs)[|seen| + k] == vs[k];
    }
  }

  /** A file goes to the buffer exactly if it brings a row. */
  lemma RowsFollowFile(start: Db, db: Db, db': Db, files: Buffer, files': Buffer, seen: seq<Visit>, v: Visit,
                       meta: LibraryMetadata)
    requires RowsFollow(start, db, files, seen) && RowsFollow(db, db', [], []) && PathsDistinct(seen + [v])
    requires meta.path == v.path
    requires if BringsRow(db, v) then HasOneMore(files, files', meta) else files' == files
    ensures RowsFollow(start, db', files', seen + [v])
  {
    hide RowsOf, Extends, HasOwnRows, BringsRow, CountBringing;
    assert seen + [] == seen;
    PrefixDistinct(seen, seen + [v]);
    RowsFollowOn(start, db, db', files, seen, []);
    UnvisitedBefore(seen, [v], 0);
    BringsAsBefore(start, db, files, seen, v);
    forall path
      ensures |RowsOf(db', path)| + CountWaiting(files', path) ==
              |RowsOf(start, path)| + CountBringing(start, seen + [v], path)
    {
      CountBringingConcat(start, seen, [v], path);
      CountBringingOne(start, v, path);
    }
  }

  lemma CountBringingOne(db: Db, v: Visit, path: Path)
    ensures CountBringing(db, [v], path) == if v.path == path && BringsRow(db, v) then 1 else 0
  {
    hide BringsRow;
    assert [v][..0] == [];
  }

  lemma InsertedRow(db: Db, db': Db, content: Content, path: Path)
    requires db.Valid() && db'.metadata == db.metadata.Insert(content)
    ensures |RowsOf(db', path)| == |RowsOf(db, path)| + if content.filePath == Some(path) then 1 else 0
  {
    InsertKeepsValid(db.metadata, content);
    hide Table.Valid;
    var m, rows := db.metadata.NextId(), RowsOf(db, path);
    assert m !in rows && db'.metadata.rows == db.metadata.rows[m := content];
    forall k
      ensures k in RowsOf(db', path) <==> k in rows || (k == m && content.filePath == Some(path))
    {
    }
    hide RowsOf, Table.Insert, Table.NextId;
    assert RowsOf(db', path) == if content.filePath == Some(path) then rows + {m} else rows;
  }

  /** A new object with metadata of its own. */
  lemma ItemBringsRow(db: Db, item: LibraryItem, meta: LibraryMetadata)
    requires db.Valid() && Extends(db, WithItem(db, item, meta))
    ensures HasOwnRows(db, WithItem(db, item, meta))
    ensures forall path :: |RowsOf(WithItem(db, item, meta), path)| ==
                           |RowsOf(db, path)| + if meta.path != [] && meta.path == path then 1 else 0
  {
    hide RowsOf, Extends;
    InsertKeepsValid(db.metadata, ContentOf(meta));
    PathOfContent(meta);
    forall path
      ensures |RowsOf(WithItem(db, item, meta), path)| ==
              |RowsOf(db, path)| + if meta.path != [] && meta.path == path then 1 else 0
    {
      InsertedRow(db, WithItem(db, item, meta), ContentOf(meta), path);
    }
  }

  lemma NewDirectoryBringsRow(db: Db, item: LibraryItem, v: Visit)
    requires db.Valid() && v.entry.Directory? && v.path != [] && forall id :: !db.HasPath(id, v.path)
    requires Extends(db, WithItem(db, item, DirectoryMetadata(v)))
    ensures RowsFollow(db, WithItem(db, item, DirectoryMetadata(v)), [], [v])
  {
    hide RowsOf, Extends, HasOwnRows, Db.HasPath, WithItem, CountBringing;
    ItemBringsRow(db, item, DirectoryMetadata(v));
    forall path
      ensures CountBringing(db, [v], path) == if v.path == path then 1 else 0
    {
      CountBringingOne(db, v, path);
    }
  }

  lemma NothingBringsRow(db: Db, vs: seq<Visit>)
    requires forall k :: 0 <= k < |vs| ==> !BringsRow(db, vs[k])
    ensures RowsFollow(db, db, [], vs)
  {
    hide RowsOf, BringsRow;
    forall path
      ensures CountBringing(db, vs, path) == 0
    {
      NoneBrings(db, vs, path);
    }
  }

  lemma {:induction false} NoneBrings(db: Db, vs: seq<Visit>, path: Path)
    requires forall k :: 0 <= k < |vs| ==> !BringsRow(db, vs[k])
    ensures CountBringing(db, vs, path) == 0
  {
    hide BringsRow;
    if vs != [] {
      NoneBrings(db, vs[..|vs| - 1], path);
    }
  }

  lemma NewAlbumBringsNone(db: Db, item: LibraryItem, tags: Tags)
    requires db.Valid() && Extends(db, WithItem(db, item, AlbumMetadata(tags)))
    ensures RowsFollow(db, WithItem(db, item, AlbumMetadata(tags)), [], [])
  {
    hide RowsOf, Extends, HasOwnRows, WithItem;
    ItemBringsRow(db, item, AlbumMetadata(tags));
  }

  /** A file of a playable kind brings a row exactly if its status is not UpToDate. */
  lemma StatusBrings(db: Db, v: Visit, status: ItemStatus)
    requires IsIndexed(v) && db.HasStatus(v.path, v.entry.modifyTime, status)
    ensures BringsRow(db, v) <==> status != UpToDate
  {
    hide IsIndexed, Db.HasStatus;
    FileIsNoDirectory(v);
    if db.HasStatus(v.path, v.entry.modifyTime, UpToDate) {
      StatusUnique(db, v.path, v.entry.modifyTime, status, UpToDate);
    }
  }

  lemma FileIsNoDirectory(v: Visit)
    requires IsIndexed(v)
    ensures v.entry.RegularFile?
  {
  }

  // ----- Entries of a directory -----

  lemma EntryDistinct(dir: Path, parent: Ident, entries: seq<FileEntry>, i: nat)
    requires i < |entries| && PathsDistinct(Visits(dir, parent, entries))
    ensures PathsDistinct(VisitsOf(dir, parent, entries[i]))
  {
    hide Visits, VisitsOf, PathsDistinct;
    SeenSoFar(dir, parent, entries, i, VisitsOf(dir, parent, entries[i]));
    SuffixDistinct(Visits(dir, parent, entries[..i]), VisitsOf(dir, parent, entries[i]));
  }

  lemma RowsAfterDirectory(start: Db, db: Db, db': Db, files: Buffer, dir: Path, parent: Ident,
                           entries: seq<FileEntry>, i: nat, next: seq<Visit>)
    requires i < |entries| && PathsDistinct(Visits(dir, parent, entries)) && next <= VisitsOf(dir, parent, entries[i])
    requires RowsFollow(start, db, files, Visits(dir, parent, entries[..i])) && RowsFollow(db, db', [], next)
    ensures RowsFollow(start, db', files, Visits(dir, parent, entries[..i]) + next)
  {
    hide RowsFollow, Visits, VisitsOf, PathsDistinct;
    SeenSoFar(dir, parent, entries, i, next);
    RowsFollowOn(start, db, db', files, Visits(dir, parent, entries[..i]), next);
  }

  lemma RowsAfterFile(start: Db, db: Db, db': Db, files: Buffer, files': Buffer, dir: Path, parent: Ident,
                      entries: seq<FileEntry>, i: nat)
    requires i < |entries| && PathsDistinct(Visits(dir, parent, entries)) && entries[i].RegularFile?
    requires RowsFollow(start, db, files, Visits(dir, parent, entries[..i])) && RowsFollow(db, db', [], [])
    requires var v := EntryVisit(dir, parent, entries[i]);
             if BringsRow(db, v) then HasOneMore(files, files', FileMetadata(v)) else files' == files
    ensures RowsFollow(start, db', files', Visits(dir, parent, entries[..i]) + [EntryVisit(dir, parent, entries[i])])
  {
    hide RowsFollow, Visits, PathsDistinct, BringsRow, HasOneMore, FileMetadata;
    var v := EntryVisit(dir, parent, entries[i]);
    SeenSoFar(dir, parent, entries, i, [v]);
    PathOfMetadata(v);
    RowsFollowFile(start, db, db', files, files', Visits(dir, parent, entries[..i]), v, FileMetadata(v));
  }

  lemma RowsAfterOther(start: Db, db: Db, files: Buffer, dir: Path, parent: Ident, entries: seq<FileEntry>, i: nat)
    requires i < |entries| && PathsDistinct(Visits(dir, parent, entries)) && entries[i].OtherEntry?
    requires RowsFollow(start, db, files, Visits(dir, parent, entries[..i]))
    ensures RowsFollow(start, db, files, Visits(dir, parent, entries[..i]) + [EntryVisit(dir, parent, entries[i])])
  {
    hide RowsFollow, Visits, PathsDistinct;
    var v := EntryVisit(dir, parent, entries[i]);
    SeenSoFar(dir, parent, entries, i, [v]);
    NothingBringsRow(db, [v]);
    RowsFollowOn(start, db, db, files, Visits(dir, parent, entries[..i]), [v]);
  }

  // ----- Flushing the buffer -----

  lemma {:induction false} GroupRefersTo(db: Db, items: seq<LibraryItem>, m: int)
    ensures var db' := InsertGroup(db, items, m);
            && db'.metadata == db.metadata
            && forall id :: id in db'.objects.rows && id !in db.objects.rows ==> db'.objects.rows[id].metaData == m
  {
    if items != [] {
      GroupRefersTo(db, items[..|items| - 1], m);
    }
  }

  lemma FileFlushed(db: Db, items: seq<LibraryItem>, meta: LibraryMetadata, path: Path)
    requires db.Valid() && meta.path != []
    ensures var db' := InsertGroup(db.InsertMetadata(ContentOf(meta)), items, db.metadata.NextId());
            && HasOwnRows(db, db')
            && |RowsOf(db', path)| == |RowsOf(db, path)| + if meta.path == path then 1 else 0
  {
    hide RowsOf, InsertGroup, Table.Valid;
    InsertKeepsValid(db.metadata, ContentOf(meta));
    GroupRefersTo(db.InsertMetadata(ContentOf(meta)), items, db.metadata.NextId());
    PathOfContent(meta);
    var db' := InsertGroup(db.InsertMetadata(ContentOf(meta)), items, db.metadata.NextId());
    InsertedRow(db, db', ContentOf(meta), path);
  }

  lemma {:induction false} BufferFlushed(db: Db, files: Buffer, path: Path)
    requires IsSound(db) && FilesFitIn(db, files)
    ensures HasOwnRows(db, InsertAll(db, files))
    ensures |RowsOf(InsertAll(db, files), path)| == |RowsOf(db, path)| + CountWaiting(files, path)
  {
    hide IsSound, RowsOf, HasOwnRows, InsertGroup, Db.InsertMetadata, ContentOf, Extends;
    if files == [] {
      NothingToFlush(db);
      assert HasOwnRows(db, db) by { NoOwnRows(db); }
      return;
    }
    var n := |files| - 1;
    assert FilesFitIn(db, files[..n]);
    BufferFlushed(db, files[..n], path);
    FilesKeepSound(db, files[..n]);
    var before := InsertAll(db, files[..n]);
    FilesStillFitIn(db, before, files);
    assert FileFitsIn(before, files[n].0, files[n].1);
    SoundIsValid(before);
    FileFlushed(before, files[n].0, files[n].1, path);
    FileKeepsSound(before, files[n].0, files[n].1);
    OwnRowsTransitive(db, before, InsertAll(db, files));
  }

  lemma NoOwnRows(db: Db)
    ensures HasOwnRows(db, db)
  {
  }

  lemma RowsFollowFlush(start: Db, db: Db, files: Buffer, seen: seq<Visit>)
    requires IsSound(db) && FilesFitIn(db, files) && RowsFollow(start, db, files, seen)
    ensures RowsFollow(start, InsertAll(db, files), [], seen)
  {
    hide IsSound, FilesFitIn, RowsOf, HasOwnRows, Extends, InsertAll, CountBringing;
    var db' := InsertAll(db, files);
    FilesKeepSound(db, files);
    ExtendsTransitive(start, db, db');
    forall path
      ensures |RowsOf(db', path)| == |RowsOf(start, path)| + CountBringing(start, seen, path)
      ensures HasOwnRows(start, db')
    {
      BufferFlushed(db, files, path);
      OwnRowsTransitive(start, db, db');
    }
    BufferFlushed(db, files, []);
    OwnRowsTransitive(start, db, db');
  }

  // ----- Scans and prunes, one after the other -----

  /** The layout of a new database has no paths. */
  lemma RowsOfWholeScan(db: Db, laidOut: Db, db': Db, path: Path, entries: seq<FileEntry>, seen: seq<Visit>)
    requires if db == EMPTY then forall p :: NewPath(laidOut, p) else laidOut == db
    requires RowsFollow(laidOut, db', [], seen) && seen <= Visits(path, Layout(BROWSE_FILE_SYSTEM_ID), entries)
    requires NamesDistinct(entries)
    ensures RowsFollow(db, db', [], seen)
  {
    hide Visits, NamesDistinct, PathsDistinct;
    NamesMakePathsDistinct(path, Layout(BROWSE_FILE_SYSTEM_ID), entries);
    PrefixDistinct(seen, Visits(path, Layout(BROWSE_FILE_SYSTEM_ID), entries));
    if db == EMPTY {
      LayoutBringsNone(laidOut);
      assert [] + seen == seen;
      hide RowsFollow;
      RowsFollowOn(EMPTY, laidOut, db', [], [], seen);
    }
  }

  lemma LayoutBringsNone(laidOut: Db)
    requires forall p :: NewPath(laidOut, p)
    ensures RowsFollow(EMPTY, laidOut, [], [])
  {
    forall p
      ensures RowsOf(laidOut, p) == {} && RowsOf(EMPTY, p) == {}
    {
      assert NewPath(laidOut, p);
    }
  }

  /** What a scan that has seen these entries, and a prune if there was one, leave of the
      rows of a path that exists. */
  ghost predicate RowsFollowRound(db: Db, db': Db, exists': Path -> bool, seen: seq<Visit>) {
    forall path :: exists'(path) ==> RowsOfPathFollow(db, db', seen, path)
  }

  ghost predicate RowsOfPathFollow(db: Db, db': Db, seen: seq<Visit>, path: Path) {
    && |RowsOf(db', path)| == |RowsOf(db, path)| + CountBringing(db, seen, path)
    && forall m :: db.IsFirstRow(path, m) ==>
                     db'.IsFirstRow(path, m) && db'.metadata.rows[m] == db.metadata.rows[m]
  }

  lemma ScanIsRowsRound(db: Db, db': Db, exists': Path -> bool, seen: seq<Visit>)
    requires db.Valid() && db'.Valid() && RowsFollow(db, db', [], seen)
    ensures RowsFollowRound(db, db', exists', seen)
  {
    hide RowsOf, Extends, Table.Valid, CountBringing;
    forall path, m | db.IsFirstRow(path, m)
      ensures db'.IsFirstRow(path, m) && db'.metadata.rows[m] == db.metadata.rows[m]
    {
      FirstRowStays(db, db', path, m);
    }
  }

  lemma PruneKeepsRows(db: Db, db': Db, exists': Path -> bool, path: Path)
    requires IsPruned(db, db', exists') && exists'(path)
    ensures RowsOf(db', path) == RowsOf(db, path)
    ensures forall m :: db.IsFirstRow(path, m) ==>
                          db'.IsFirstRow(path, m) && db'.metadata.rows[m] == db.metadata.rows[m]
  {
    hide Table.Valid;
    forall m | db.IsRowOf(m, path)
      ensures db'.IsRowOf(m, path)
    {
    }
    forall m | db'.IsRowOf(m, path)
      ensures db.IsRowOf(m, path)
    {
    }
  }

  lemma PruneIsRowsRound(db: Db, scanned: Db, db': Db, exists': Path -> bool, seen: seq<Visit>)
    requires RowsFollowRound(db, scanned, exists', seen) && IsPruned(scanned, db', exists')
    ensures RowsFollowRound(db, db', exists', seen)
  {
    hide RowsOf, Db.IsFirstRow, IsPruned, CountBringing;
    forall path | exists'(path)
      ensures RowsOfPathFollow(db, db', seen, path)
    {
      assert RowsOfPathFollow(db, scanned, seen, path);
      PruneKeepsRows(scanned, db', exists', path);
    }
  }

  /** Each of these databases comes from the one before by a scan of a tree, whole or in
      part, and a prune if there was one. */
  ghost predicate AreRowsRounds(dbs: seq<Db>, exists': Path -> bool, seens: seq<seq<Visit>>) {
    && |dbs| == |seens| + 1
    && forall k :: 0 <= k < |seens| ==>
         RowsFollowRound(dbs[k], dbs[k + 1], exists', seens[k]) && PathsDistinct(seens[k])
  }

  /** As long as a file stays as it is, each scan that sees it adds a row if it was modified
      since it was indexed, and none if not; which of the two it is never changes. */
  lemma {:induction false} RowsPileUp(dbs: seq<Db>, exists': Path -> bool, seens: seq<seq<Visit>>, v: Visit,
                                      status: ItemStatus)
    requires AreRowsRounds(dbs, exists', seens) && forall k :: 0 <= k < |seens| ==> v in seens[k]
    requires IsIndexed(v) && exists'(v.path) && status != DoesntExist
    requires dbs[0].HasStatus(v.path, v.entry.modifyTime, status)
    ensures var n := |seens|;
            && dbs[n].HasStatus(v.path, v.entry.modifyTime, status)
            && |RowsOf(dbs[n], v.path)| == |RowsOf(dbs[0], v.path)| + if status == NeedsUpdate then n else 0
  {
    hide RowsOf, RowsFollowRound, CountBringing, Db.HasStatus, PathsDistinct, IsIndexed;
    var n := |seens| - 1;
    if n >= 0 {
      assert AreRowsRounds(dbs[..n + 1], exists', seens[..n]);
      RowsPileUp(dbs[..n + 1], exists', seens[..n], v, status);
      OneMoreRound(dbs[n], dbs[n + 1], exists', seens[n], v, status);
    }
  }

  lemma OneMoreRound(db: Db, db': Db, exists': Path -> bool, seen: seq<Visit>, v: Visit, status: ItemStatus)
    requires RowsFollowRound(db, db', exists', seen) && PathsDistinct(seen) && v in seen
    requires IsIndexed(v) && exists'(v.path) && status != DoesntExist
    requires db.HasStatus(v.path, v.entry.modifyTime, status)
    ensures db'.HasStatus(v.path, v.entry.modifyTime, status)
    ensures |RowsOf(db', v.path)| == |RowsOf(db, v.path)| + if status == NeedsUpdate then 1 else 0
  {
    hide RowsOf, CountBringing;
    var k: nat :| k < |seen| && seen[k] == v;
    OnlyOneBrings(db, seen, k);
    assert RowsOfPathFollow(db, db', seen, v.path);
    hide PathsDistinct, RowsFollowRound, RowsOfPathFollow, IsIndexed;
    if status == NeedsUpdate && db.HasStatus(v.path, v.entry.modifyTime, UpToDate) {
      StatusUnique(db, v.path, v.entry.modifyTime, NeedsUpdate, UpToDate);
    }
  }

  lemma {:induction false} OnlyOneBrings(db: Db, seen: seq<Visit>, k: nat)
    requires PathsDistinct(seen) && k < |seen|
    ensures CountBringing(db, seen, seen[k].path) == if BringsRow(db, seen[k]) then 1 else 0
  {
    hide BringsRow;
    var n := |seen| - 1;
    if k == n {
      NothingBrought(db, seen[..n], seen[n].path);
    } else {
      OnlyOneBrings(db, seen[..n], k);
    }
  }
}
