/** How far a scan has come: what is in the database, and what waits in its buffer. */
module ScanProgress {
  import opened Basics
  import opened MusicDatabase
  import opened LibraryIndex
  import opened LibraryTree
  import opened LibraryInvariant

  type Buffer = seq<(seq<LibraryItem>, LibraryMetadata)>

  // ----- The effect of a scan on the database -----

  /** Paths that were not visited are as new as they were. */
  ghost predicate KeepsNew(db: Db, db': Db, vs: seq<Visit>) {
    forall path :: NewPath(db, path) && IsUnvisited(vs, path) ==> NewPath(db', path)
  }

  ghost predicate IsUnvisited(vs: seq<Visit>, path: Path) {
    forall k :: 0 <= k < |vs| ==> vs[k].path != path
  }

  /** The database has taken in these visits, and is still a library. */
  ghost predicate HasTakenIn(db: Db, db': Db, vs: seq<Visit>) {
    && IsLibrary(db')
    && Extends(db, db')
    && IndexOf(db') == Fold(IndexOf(db), vs)
    && KeepsNew(db, db', vs)
  }

  lemma ExtendsIncludes(db: Db, db': Db)
    requires Core(db) && Core(db') && Extends(db, db')
    ensures Includes(IndexOf(db'), IndexOf(db))
  {
    hide IdentOf, EntryOf, Linked, IndexOf, PathsUnique, AllReferenced;
    IdentsStay(db, db');
    forall i | i in IndexOf(db)
      ensures i in IndexOf(db') && IndexOf(db')[i] == IndexOf(db)[i]
    {
      var id := ObjectOf(db, i);
      IndexHas(db', id);
    }
  }

  // ----- Items and what they become -----

  lemma AlbumsByClass(db: Db, id: int)
    requires Linked(db) && id in db.objects.rows
    ensures IdentOf(db, id).Album? <==> db.objects.rows[id].upnpClass == MusicAlbum
  {
    assert LinkedRow(db, id, db.objects.rows[id]);
  }

  lemma ItemUnder(db: Db, item: LibraryItem, content: Content, path: Path)
    requires Linked(db) && item.parentId in db.objects.rows
    requires item.upnpClass != MusicAlbum && content.filePath == Some(path)
    ensures ItemIdent(db, item, content) == if IdentOf(db, item.parentId).Album? then AlbumTrack(path) else Node(path)
    ensures ItemEntry(db, item, content) == Entry(IdentOf(db, item.parentId), item.name, item.upnpClass, content)
  {
    AlbumsByClass(db, item.parentId);
    hide IdentOf;
  }

  // ----- The buffer -----

  /** A buffered file, and the visit that put it there. */
  ghost predicate IsBufferedFile(db: Db, items: seq<LibraryItem>, meta: LibraryMetadata, v: Visit) {
    && meta.path == v.path
    && FileFits(db, items, meta)
    && NewPath(db, v.path)
    && IsReadyFor(IndexOf(db), v)
    && GroupIndex(db, items, ContentOf(meta)) == FileIndex(v)
  }

  ghost predicate IsBuffer(db: Db, files: Buffer, waiting: seq<Visit>) {
    && |files| == |waiting|
    && PathsDistinct(waiting)
    && (forall k :: 0 <= k < |waiting| ==> IsIndexed(waiting[k]))
    && (forall k :: 0 <= k < |files| ==> IsBufferedFile(db, files[k].0, files[k].1, waiting[k]))
  }

  lemma {:induction false} BufferIsPending(db: Db, files: Buffer, waiting: seq<Visit>)
    requires IsBuffer(db, files, waiting)
    ensures PendingIndex(db, files) == Pending(waiting)
  {
    hide IsIndexed, FileIndex, GroupIndex, FileFits, NewPath, IsReadyFor, IndexOf;
    if files != [] {
      var n := |files| - 1;
      assert IsBufferedFile(db, files[n].0, files[n].1, waiting[n]);
      BufferIsPending(db, files[..n], waiting[..n]);
    }
  }

  lemma BufferFits(db: Db, files: Buffer, waiting: seq<Visit>)
    requires IsBuffer(db, files, waiting)
    ensures FilesFit(db, files)
    ensures forall k :: 0 <= k < |files| ==> IsReadyFor(IndexOf(db), waiting[k]) && files[k].1.path == waiting[k].path
  {
    hide IsIndexed, FileIndex, GroupIndex, FileFits, NewPath, IsReadyFor, IndexOf;
    forall k | 0 <= k < |files|
      ensures FileFits(db, files[k].0, files[k].1) && NewPath(db, files[k].1.path)
      ensures IsReadyFor(IndexOf(db), waiting[k]) && files[k].1.path == waiting[k].path
    {
      assert IsBufferedFile(db, files[k].0, files[k].1, waiting[k]);
    }
  }

  /** Flushing the buffer adds what was pending. */
  lemma FlushAddsPending(db: Db, files: Buffer, waiting: seq<Visit>)
    requires IsLibrary(db) && IsBuffer(db, files, waiting)
    ensures var db' := InsertAll(db, files);
            && IsLibrary(db') && Extends(db, db') && IndexOf(db') == IndexOf(db) + Pending(waiting)
            && KeepsNew(db, db', waiting)
  {
    hide Linked, Injective, Extends, IndexOf, Shape, NewPath, PathsUnique, AllReferenced, IsBufferedFile, IsReadyFor,
         IsIndexed, FilesFit;
    BufferIsPending(db, files, waiting);
    BufferFits(db, files, waiting);
    FilesAddEntries(db, files);
    PendingKeepsShape(IndexOf(db), waiting);
  }

  /** Nothing in the database is pending. */
  lemma PendingIsAbsent(db: Db, files: Buffer, waiting: seq<Visit>)
    requires IsBuffer(db, files, waiting)
    ensures IndexOf(db).Keys !! Pending(waiting).Keys
    ensures forall path :: IsUnvisited(waiting, path) ==> IsAbsent(Pending(waiting), path)
    ensures forall i :: i in Pending(waiting) ==> !i.Album?
  {
    hide IndexOf, IsIndexed, IsPlaced, Pending, IsBufferedFile;
    BufferFits(db, files, waiting);
    KeysOfPending(waiting);
    forall i | i in Pending(waiting)
      ensures i !in IndexOf(db)
    {
      var k :| 0 <= k < |waiting| && IsOfPath(i, waiting[k].path);
      assert IsReadyFor(IndexOf(db), waiting[k]);
    }
  }

  lemma KeysOfPending(waiting: seq<Visit>)
    requires forall k :: 0 <= k < |waiting| ==> IsIndexed(waiting[k])
    ensures forall path :: IsUnvisited(waiting, path) ==> IsAbsent(Pending(waiting), path)
    ensures forall i :: i in Pending(waiting) ==> !i.Album?
    ensures forall i :: i in Pending(waiting) ==> exists k :: 0 <= k < |waiting| && IsOfPath(i, waiting[k].path)
  {
    hide IsIndexed, Pending;
    PendingKeys(waiting);
  }

  lemma BufferedFileStays(db: Db, db': Db, items: seq<LibraryItem>, meta: LibraryMetadata, v: Visit)
    requires IsLibrary(db) && IsLibrary(db') && Extends(db, db') && IsBufferedFile(db, items, meta, v)
    requires NewPath(db', v.path)
    ensures IsBufferedFile(db', items, meta, v)
  {
    hide Linked, Injective, Extends, IndexOf, Shape, NewPath, PathsUnique, AllReferenced, FileFits, GroupIndex,
         IsReadyFor, FileIndex, ContentOf;
    FileStillFits(db, db', items, meta);
    ExtendsIncludes(db, db');
    NewPathNotIndexed(db', v.path, Node(v.path));
    NewPathNotIndexed(db', v.path, AlbumTrack(v.path));
    ReadyStays(IndexOf(db), IndexOf(db'), v);
  }

  lemma BufferStays(db: Db, db': Db, files: Buffer, waiting: seq<Visit>, vs: seq<Visit>)
    requires IsLibrary(db) && IsLibrary(db') && Extends(db, db') && KeepsNew(db, db', vs)
    requires IsBuffer(db, files, waiting) && forall k :: 0 <= k < |waiting| ==> IsUnvisited(vs, waiting[k].path)
    ensures IsBuffer(db', files, waiting)
  {
    hide IsLibrary, Extends, NewPath, FileFits, GroupIndex, IsReadyFor, FileIndex, IsUnvisited, IsIndexed, IndexOf;
    forall k | 0 <= k < |files|
      ensures IsBufferedFile(db', files[k].0, files[k].1, waiting[k])
    {
      assert IsBufferedFile(db, files[k].0, files[k].1, waiting[k]);
      BufferedFileStays(db, db', files[k].0, files[k].1, waiting[k]);
    }
  }

  // ----- Progress -----

  /** Since `start` the scan has seen these entries; their objects are in the database
      or wait in the buffer. */
  ghost predicate Progress(start: Db, db: Db, files: Buffer, waiting: seq<Visit>, seen: seq<Visit>) {
    && IsLibrary(db)
    && Extends(start, db)
    && IsBuffer(db, files, waiting)
    && IndexOf(db) + Pending(waiting) == Fold(IndexOf(start), seen)
    && KeepsNew(start, db, seen)
    && (forall k :: 0 <= k < |waiting| ==> waiting[k] in seen)
  }

  lemma ProgressStarts(db: Db)
    requires IsLibrary(db)
    ensures Progress(db, db, [], [], [])
  {
    hide IsLibrary, IndexOf, NewPath;
    assert IndexOf(db) + Pending([]) == IndexOf(db);
  }

  lemma ProgressEnds(start: Db, db: Db, files: Buffer, waiting: seq<Visit>, seen: seq<Visit>)
    requires Progress(start, db, files, waiting, seen)
    ensures HasTakenIn(start, InsertAll(db, files), seen)
  {
    hide IsLibrary, IndexOf, NewPath, IsBuffer, InsertAll, Pending, Fold;
    FlushAddsPending(db, files, waiting);
    var db' := InsertAll(db, files);
    forall path | NewPath(start, path) && IsUnvisited(seen, path)
      ensures NewPath(db', path)
    {
      assert IsUnvisited(waiting, path);
    }
  }

  /** The database takes in further visits while files wait. */
  lemma ProgressInDatabase(start: Db, db: Db, db': Db, files: Buffer, waiting: seq<Visit>, seen: seq<Visit>,
                           vs: seq<Visit>)
    requires Progress(start, db, files, waiting, seen) && HasTakenIn(db, db', vs) && PathsDistinct(seen + vs)
    ensures Progress(start, db', files, waiting, seen + vs)
  {
    hide IsLibrary, IndexOf, NewPath, IsBufferedFile, IsIndexed, IsUnvisited, Pending, Fold;
    WaitingUnvisited(waiting, seen, vs);
    BufferStays(db, db', files, waiting, vs);
    PendingIsAbsent(db, files, waiting);
    PendingIsApart(waiting, vs);
    FoldBeside(IndexOf(db), Pending(waiting), vs);
    FoldConcat(IndexOf(start), seen, vs);
    forall path | NewPath(start, path) && IsUnvisited(seen + vs, path)
      ensures NewPath(db', path)
    {
      UnvisitedParts(seen, vs, path);
    }
  }

  lemma WaitingUnvisited(waiting: seq<Visit>, seen: seq<Visit>, vs: seq<Visit>)
    requires PathsDistinct(seen + vs) && forall k :: 0 <= k < |waiting| ==> waiting[k] in seen
    ensures forall k :: 0 <= k < |waiting| ==> IsUnvisited(vs, waiting[k].path)
  {
    forall k, j | 0 <= k < |waiting| && 0 <= j < |vs|
      ensures waiting[k].path != vs[j].path
    {
      var n :| 0 <= n < |seen| && seen[n] == waiting[k];
      assert (seen + vs)[n] == waiting[k] && (seen + vs)[|seen| + j] == vs[j];
    }
  }

  lemma PendingIsApart(waiting: seq<Visit>, vs: seq<Visit>)
    requires forall k :: 0 <= k < |waiting| ==> IsIndexed(waiting[k]) && IsUnvisited(vs, waiting[k].path)
    ensures IsApart(Pending(waiting), vs)
  {
    hide IsIndexed, Pending;
    PendingKeys(waiting);
    forall i | i in Pending(waiting)
      ensures !i.Album? && forall k :: 0 <= k < |vs| ==> !IsOfPath(i, vs[k].path)
    {
      var n :| 0 <= n < |waiting| && IsOfPath(i, waiting[n].path);
    }
  }

  lemma UnvisitedParts(seen: seq<Visit>, vs: seq<Visit>, path: Path)
    requires IsUnvisited(seen + vs, path)
    ensures IsUnvisited(seen, path) && IsUnvisited(vs, path)
  {
    forall k | 0 <= k < |seen|
      ensures seen[k].path != path
    {
      assert (seen + vs)[k] == seen[k];
    }
    forall k | 0 <= k < |vs|
      ensures vs[k].path != path
    {
      assert (seen + vs)[|seen| + k] == vs[k];
    }
  }

  /** A visit that brings nothing new is taken in as it is. */
  lemma SettledIsTakenIn(db: Db, v: Visit)
    requires IsLibrary(db) && IsSettled(IndexOf(db), v)
    ensures HasTakenIn(db, db, [v])
  {
    hide IsLibrary, IndexOf, NewPath, IsSettled;
    SettledFoldsToItself(IndexOf(db), [v]);
  }

  /** A file goes to the buffer; its album is in the database already. */
  lemma ProgressInBuffer(start: Db, db: Db, db': Db, files: Buffer, waiting: seq<Visit>, seen: seq<Visit>,
                         items: seq<LibraryItem>, meta: LibraryMetadata, v: Visit)
    requires Progress(start, db, files, waiting, seen) && PathsDistinct(seen + [v])
    requires IsLibrary(db') && Extends(db, db') && IndexOf(db') == WithAlbum(IndexOf(db), v) && KeepsNew(db, db', [])
    requires IsIndexed(v) && !v.entry.Directory? && IsBufferedFile(db', items, meta, v)
    ensures Progress(start, db', files + [(items, meta)], waiting + [v], seen + [v])
  {
    hide IsLibrary, IndexOf, NewPath, IsBufferedFile, IsUnvisited, IsIndexed, Pending, Fold, WithAlbum, Visited,
         FileIndex;
    WaitingUnvisited(waiting, seen, [v]);
    assert forall k :: 0 <= k < |waiting| ==> IsUnvisited([], waiting[k].path) by { NothingVisited(); }
    BufferStays(db, db', files, waiting, []);
    BufferGrows(db', files, waiting, items, meta, v);
    FoldConcat(IndexOf(start), seen, [v]);
    WaitingApartFrom(waiting, v);
    PendingIsAbsent(db, files, waiting);
    BufferedIsReady(db', items, meta, v);
    VisitedIntoBuffer(IndexOf(db), Pending(waiting), v);
    PendingSnoc(waiting, v);
    FoldOne(Fold(IndexOf(start), seen), v);
    forall path | NewPath(start, path) && IsUnvisited(seen + [v], path)
      ensures NewPath(db', path)
    {
      UnvisitedParts(seen, [v], path);
      NothingVisited();
    }
  }

  lemma NothingVisited()
    ensures forall path :: IsUnvisited([], path)
  {
  }

  lemma BufferedIsReady(db: Db, items: seq<LibraryItem>, meta: LibraryMetadata, v: Visit)
    requires IsBufferedFile(db, items, meta, v)
    ensures IsReadyFor(IndexOf(db), v)
  {
  }

  lemma WaitingApartFrom(waiting: seq<Visit>, v: Visit)
    requires forall k :: 0 <= k < |waiting| ==> IsUnvisited([v], waiting[k].path)
    ensures IsUnvisited(waiting, v.path)
  {
    forall k | 0 <= k < |waiting|
      ensures waiting[k].path != v.path
    {
      assert IsUnvisited([v], waiting[k].path) && [v][0] == v;
    }
  }

  lemma BufferGrows(db: Db, files: Buffer, waiting: seq<Visit>, items: seq<LibraryItem>, meta: LibraryMetadata,
                    v: Visit)
    requires IsBuffer(db, files, waiting) && IsBufferedFile(db, items, meta, v) && IsIndexed(v)
    requires forall k :: 0 <= k < |waiting| ==> IsUnvisited([v], waiting[k].path)
    ensures IsBuffer(db, files + [(items, meta)], waiting + [v])
  {
    hide IsBufferedFile, IsIndexed;
    WaitingApartFrom(waiting, v);
    assert forall k :: 0 <= k < |waiting| ==> waiting[k].path != v.path;
  }

  lemma PendingSnoc(waiting: seq<Visit>, v: Visit)
    requires IsIndexed(v) && forall k :: 0 <= k < |waiting| ==> IsIndexed(waiting[k])
    ensures Pending(waiting + [v]) == Pending(waiting) + FileIndex(v)
  {
    hide IsIndexed, FileIndex;
    assert (waiting + [v])[..|waiting|] == waiting;
  }

  lemma FoldOne(idx: Index, v: Visit)
    ensures Fold(idx, [v]) == Visited(idx, v)
  {
    hide Visited;
    assert [v][..0] == [];
  }

  lemma VisitedIntoBuffer(idx: Index, pending: Index, v: Visit)
    requires IsIndexed(v) && !v.entry.Directory? && IsAbsent(WithAlbum(idx, v), v.path) && IsAbsent(pending, v.path)
    requires idx.Keys !! pending.Keys && forall i :: i in pending ==> !i.Album?
    ensures Visited(idx + pending, v) == WithAlbum(idx, v) + (pending + FileIndex(v))
  {
    hide IsIndexed, FileIndex, AlbumEntry;
    WithAlbumBeside(idx, pending, v);
    assert Node(v.path) !in idx;
    assert Visited(idx + pending, v) == FileIndex(v) + WithAlbum(idx + pending, v);
    hide Visited, WithAlbum;
    FileIndexKeys(v);
    assert FileIndex(v) + (WithAlbum(idx, v) + pending) == WithAlbum(idx, v) + (pending + FileIndex(v));
  }
}
