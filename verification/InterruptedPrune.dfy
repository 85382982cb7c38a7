/** What is left when a prune fails between two of its deletions: surviving objects are
    whole, but an object that waits to be deleted may have lost its metadata, and then
    no later prune finds it. */
module InterruptedPrune {
  import opened Basics
  import opened MusicDatabase
  import opened LibraryIndex
  import opened LibraryTree
  import opened LibraryInvariant
  import opened LibraryPruning
  import opened LibrarySoundness
  import opened ScanProgress
  import opened ScanSteps

  /** An object whose file is gone, and which has not been deleted yet. */
  ghost predicate IsWaiting(db: Db, cut: Db, id: int, exists': Path -> bool) {
    id in cut.objects.rows && IsGone(db, id, exists')
  }

  ghost predicate HasMetadata(db: Db, cut: Db, id: int)
    requires id in db.objects.rows
  {
    db.objects.rows[id].metaData in cut.metadata.rows
  }

  ghost predicate SameRow(db: Db, i: int, j: int) {
    i in db.objects.rows && j in db.objects.rows && db.objects.rows[i].metaData == db.objects.rows[j].metaData
  }

  // ----- The tables after a cut -----

  /** Rows are as they were, only rows of gone objects are deleted, and a row of metadata
      only after one of its objects. */
  ghost predicate IsPartOfPrune(db: Db, cut: Db, exists': Path -> bool) {
    && cut.Valid()
    && (forall id :: id in cut.objects.rows ==> id in db.objects.rows && cut.objects.rows[id] == db.objects.rows[id])
    && (forall id :: id in db.objects.rows && id !in cut.objects.rows ==> IsGone(db, id, exists'))
    && (forall m :: m in cut.metadata.rows ==> m in db.metadata.rows && cut.metadata.rows[m] == db.metadata.rows[m])
    && (forall m :: m in db.metadata.rows && m !in cut.metadata.rows ==> IsMetadataOfDeleted(db, cut, m))
  }

  ghost predicate IsMetadataOfDeleted(db: Db, cut: Db, m: int) {
    exists id :: id in db.objects.rows && id !in cut.objects.rows && db.objects.rows[id].metaData == m
  }

  lemma CutRows(db: Db, files: seq<(int, int)>, i: nat, k: nat)
    requires db.Valid() && k <= i <= |files|
    ensures var cut := CutAt(db, files, i, k);
            && cut.Valid()
            && cut.objects.rows == db.objects.rows - Firsts(files[..i])
            && cut.metadata.rows == db.metadata.rows - Seconds(files[..k])
  {
    hide Table.Valid;
    DeleteAllRows(db, files[..i]);
    DeleteAllRows(db, files[..k]);
  }

  lemma CutIsPart(db: Db, cut: Db, exists': Path -> bool)
    requires db.Valid() && IsCut(db, cut, exists')
    ensures IsPartOfPrune(db, cut, exists')
  {
    hide Table.Valid, IsGone, GoneFiles, CutAt, Firsts, Seconds;
    var files := GoneFiles(db, db.objects.ids, exists');
    var i: nat, k: nat :| k <= i <= k + 1 && IsCutAt(db, cut, exists', i, k);
    CutRows(db, files, i, k);
    GoneFilesListed(db, db.objects.ids, exists');
    FirstsOfSlice(files, i);
    SecondsOfSlice(files, i, k);
    hide IsCutAt;
    forall m | m in db.metadata.rows && m !in cut.metadata.rows
      ensures IsMetadataOfDeleted(db, cut, m)
    {
      var f :| f in files && f.0 in Firsts(files[..i]) && f.1 == m;
      assert IsGone(db, f.0, exists');
      GoneHaveRows(db, exists');
    }
  }

  lemma FirstsOfSlice(files: seq<(int, int)>, i: nat)
    requires i <= |files|
    ensures forall id :: id in Firsts(files[..i]) ==> exists f :: f in files && f.0 == id
  {
    assert forall f :: f in files[..i] ==> f in files;
  }

  lemma SecondsOfSlice(files: seq<(int, int)>, i: nat, k: nat)
    requires k <= i <= |files|
    ensures forall m :: m in Seconds(files[..k]) ==> exists f :: f in files && f.0 in Firsts(files[..i]) && f.1 == m
  {
    forall m | m in Seconds(files[..k])
      ensures exists f :: f in files && f.0 in Firsts(files[..i]) && f.1 == m
    {
      var f :| f in files[..k] && f.1 == m;
      assert f in files && f in files[..i];
    }
  }

  // ----- What survives is whole -----

  /** An object that will survive has kept its row, its content and its parent, which will
      survive too; so what has lost its metadata or its parent waits to be deleted. */
  lemma SurvivorsAreWhole(db: Db, cut: Db, exists': Path -> bool, id: int)
    requires IsSound(db) && IsPrefixClosed(exists') && IsPartOfPrune(db, cut, exists')
    requires id in db.objects.rows && !IsGone(db, id, exists')
    ensures id in cut.objects.rows && cut.objects.rows[id] == db.objects.rows[id]
    ensures cut.ContentAt(id) == db.ContentAt(id) && cut.ContentAt(id).Some?
    ensures var parentId := db.objects.rows[id].parentId;
            id != 0 ==> parentId in cut.objects.rows && !IsGone(db, parentId, exists')
  {
    hide Table.Valid, AlbumsDistinct, IsFixed, IsPrefixClosed, IsOffered;
    var row := db.objects.rows[id];
    assert IsSoundRow(db, id, row);
    forall other | SameRow(db, other, id)
      ensures other in cut.objects.rows
    {
      assert !IsGone(db, other, exists');
    }
    assert !IsMetadataOfDeleted(db, cut, row.metaData);
    if id != 0 {
      assert IsSoundRow(db, row.parentId, db.objects.rows[row.parentId]);
      ParentOfSurvivor(db, exists', id);
    }
  }

  /** The database is sound after the cut exactly if everything that waits still has its
      metadata and its parent. */
  lemma CutIsSoundExactly(db: Db, cut: Db, exists': Path -> bool)
    requires IsSound(db) && IsPrefixClosed(exists') && IsPartOfPrune(db, cut, exists')
    ensures IsSound(cut) <==>
            forall id :: IsWaiting(db, cut, id, exists') ==>
              HasMetadata(db, cut, id) && (id == 0 || db.objects.rows[id].parentId in cut.objects.rows)
  {
    hide Table.Valid, AlbumsDistinct, IsPrefixClosed, IsOffered, IsGone;
    if IsSound(cut) {
      forall id | IsWaiting(db, cut, id, exists')
        ensures HasMetadata(db, cut, id) && (id == 0 || db.objects.rows[id].parentId in cut.objects.rows)
      {
        assert IsSoundRow(cut, id, cut.objects.rows[id]);
      }
    }
    if forall id :: IsWaiting(db, cut, id, exists') ==>
        HasMetadata(db, cut, id) && (id == 0 || db.objects.rows[id].parentId in cut.objects.rows) {
      WholeCutIsSound(db, cut, exists');
    }
  }

  lemma WholeCutIsSound(db: Db, cut: Db, exists': Path -> bool)
    requires IsSound(db) && IsPrefixClosed(exists') && IsPartOfPrune(db, cut, exists')
    requires forall id :: IsWaiting(db, cut, id, exists') ==>
               HasMetadata(db, cut, id) && (id == 0 || db.objects.rows[id].parentId in cut.objects.rows)
    ensures IsSound(cut)
  {
    hide Table.Valid, AlbumsDistinct, IsPrefixClosed, IsSoundRow, IsMetadataOfDeleted, IsGone, LinkedRow;
    forall id | id in cut.objects.rows
      ensures cut.ContentAt(id) == db.ContentAt(id) && cut.ContentAt(id).Some?
      ensures id == 0 || db.objects.rows[id].parentId in cut.objects.rows
    {
      KeptInCut(db, cut, exists', id);
    }
    forall id | id in cut.objects.rows
      ensures IsSoundRow(cut, id, cut.objects.rows[id])
    {
      RowIsSoundInCut(db, cut, id);
    }
    AlbumsDistinctInCut(db, cut);
    FixedInCut(db, cut, exists', ALBUMS_ID);
    FixedInCut(db, cut, exists', BROWSE_FILE_SYSTEM_ID);
  }

  lemma KeptInCut(db: Db, cut: Db, exists': Path -> bool, id: int)
    requires IsSound(db) && IsPrefixClosed(exists') && IsPartOfPrune(db, cut, exists')
    requires id in cut.objects.rows
    requires IsWaiting(db, cut, id, exists') ==>
               HasMetadata(db, cut, id) && (id == 0 || db.objects.rows[id].parentId in cut.objects.rows)
    ensures cut.ContentAt(id) == db.ContentAt(id) && cut.ContentAt(id).Some?
    ensures id == 0 || db.objects.rows[id].parentId in cut.objects.rows
  {
    hide Table.Valid, AlbumsDistinct, IsPrefixClosed, IsSoundRow, IsMetadataOfDeleted, IsGone;
    if !IsGone(db, id, exists') {
      SurvivorsAreWhole(db, cut, exists', id);
    }
  }

  lemma RowIsSoundInCut(db: Db, cut: Db, id: int)
    requires IsSound(db) && id in cut.objects.rows
    requires forall k :: k in cut.objects.rows ==>
               k in db.objects.rows && cut.objects.rows[k] == db.objects.rows[k]
               && cut.ContentAt(k) == db.ContentAt(k) && cut.ContentAt(k).Some?
    requires id == 0 || db.objects.rows[id].parentId in cut.objects.rows
    ensures IsSoundRow(cut, id, cut.objects.rows[id])
  {
    hide Table.Valid, AlbumsDistinct, IsOffered, IsFixed;
    var row := db.objects.rows[id];
    assert IsSoundRow(db, id, row);
    assert cut.ContentAt(id) == db.ContentAt(id);
    assert id != 0 ==> cut.ContentAt(row.parentId) == db.ContentAt(row.parentId);
  }

  lemma AlbumsDistinctInCut(db: Db, cut: Db)
    requires AlbumsDistinct(db)
    requires forall k :: k in cut.objects.rows ==>
               k in db.objects.rows && cut.objects.rows[k] == db.objects.rows[k] && cut.ContentAt(k) == db.ContentAt(k)
    ensures AlbumsDistinct(cut)
  {
    hide Db.ContentAt;
    forall id, title, artist | cut.IsAlbum(id, title, artist)
      ensures db.IsAlbum(id, title, artist)
    {
      AlbumInRows(cut, id, title, artist);
    }
  }

  lemma FixedInCut(db: Db, cut: Db, exists': Path -> bool, id: int)
    requires IsSound(db) && IsPrefixClosed(exists') && IsPartOfPrune(db, cut, exists') && IsFixed(db, id)
    ensures IsFixed(cut, id)
  {
    hide IsSound, IsPrefixClosed, IsPartOfPrune;
    assert !IsGone(db, id, exists');
    SurvivorsAreWhole(db, cut, exists', id);
  }

  // ----- A prune after the cut -----

  /** No row of metadata is deleted while one of its objects waits, and none is left whose
      objects are all deleted. */
  ghost predicate SplitsNoRow(db: Db, cut: Db, exists': Path -> bool) {
    && (forall id :: IsWaiting(db, cut, id, exists') ==> HasMetadata(db, cut, id))
    && (forall id :: id in db.objects.rows && id !in cut.objects.rows && HasMetadata(db, cut, id) ==>
          exists other :: IsWaiting(db, cut, other, exists') && SameRow(db, other, id))
  }

  /** A complete prune after the cut does what the whole prune would have done, exactly if
      the cut splits no row from its objects. */
  lemma PruneAfterCutExactly(db: Db, cut: Db, db': Db, exists': Path -> bool)
    requires db.Valid() && IsPartOfPrune(db, cut, exists') && IsPruned(cut, db', exists')
    ensures IsPruned(db, db', exists') <==> SplitsNoRow(db, cut, exists')
  {
    hide Table.Valid, IsGone, IsMetadataOfDeleted;
    GoneInCut(db, cut, exists');
    if SplitsNoRow(db, cut, exists') {
      PruneCompletes(db, cut, db', exists');
    }
    if IsPruned(db, db', exists') {
      forall id | IsWaiting(db, cut, id, exists')
        ensures HasMetadata(db, cut, id)
      {
        assert id in cut.objects.rows && id !in db'.objects.rows;
      }
      forall id | id in db.objects.rows && id !in cut.objects.rows && HasMetadata(db, cut, id)
        ensures exists other :: IsWaiting(db, cut, other, exists') && SameRow(db, other, id)
      {
        var m := db.objects.rows[id].metaData;
        assert IsMetadataOfGone(db, m, exists') && m !in db'.metadata.rows;
        assert IsMetadataOfGone(cut, m, exists');
        var other :| IsGone(cut, other, exists') && cut.objects.rows[other].metaData == m;
        assert IsWaiting(db, cut, other, exists') && SameRow(db, other, id);
      }
    }
  }

  /** A later prune sees exactly the waiting objects that have their metadata. */
  lemma GoneInCut(db: Db, cut: Db, exists': Path -> bool)
    requires IsPartOfPrune(db, cut, exists')
    ensures forall id :: IsGone(cut, id, exists') <==> IsWaiting(db, cut, id, exists') && HasMetadata(db, cut, id)
  {
    hide Table.Valid, IsMetadataOfDeleted;
  }

  lemma PruneCompletes(db: Db, cut: Db, db': Db, exists': Path -> bool)
    requires db.Valid() && IsPartOfPrune(db, cut, exists') && IsPruned(cut, db', exists')
    requires SplitsNoRow(db, cut, exists')
    ensures IsPruned(db, db', exists')
  {
    hide Table.Valid, IsGone;
    GoneInCut(db, cut, exists');
    GoneHaveRows(db, exists');
    forall m | m in db.metadata.rows
      ensures m in db'.metadata.rows <==> !IsMetadataOfGone(db, m, exists')
    {
      if id :| IsGone(db, id, exists') && db.objects.rows[id].metaData == m {
        if m in cut.metadata.rows {
          RowGoesLater(db, cut, exists', id);
        }
      }
    }
  }

  lemma RowGoesLater(db: Db, cut: Db, exists': Path -> bool, id: int)
    requires IsPartOfPrune(db, cut, exists') && SplitsNoRow(db, cut, exists')
    requires id in db.objects.rows && IsGone(db, id, exists') && HasMetadata(db, cut, id)
    ensures IsMetadataOfGone(cut, db.objects.rows[id].metaData, exists')
  {
    hide Table.Valid, IsGone, IsMetadataOfDeleted;
    GoneInCut(db, cut, exists');
    var other := id;
    if id !in cut.objects.rows {
      other :| IsWaiting(db, cut, other, exists') && SameRow(db, other, id);
    }
    assert IsWaiting(db, cut, other, exists') && IsGone(cut, other, exists');
  }

  /** An object without metadata is not found by any later prune, whatever exists then. */
  lemma StrandedStays(db: Db, db': Db, later: Path -> bool, id: int)
    requires IsPruned(db, db', later) && id in db.objects.rows && db.ContentAt(id) == None
    ensures id in db'.objects.rows && db'.ContentAt(id) == None
  {
    SurvivorsKeepMetadata(db, db', later, id);
  }

  // ----- Whole deletions -----

  /** After some whole deletions, exactly those waiting objects have lost their metadata
      that share it with a deleted one. */
  lemma StrandedExactly(db: Db, exists': Path -> bool, k: nat, id: int)
    requires db.Valid() && k <= |GoneFiles(db, db.objects.ids, exists')|
    requires var cut := CutAt(db, GoneFiles(db, db.objects.ids, exists'), k, k); IsWaiting(db, cut, id, exists')
    ensures var cut := CutAt(db, GoneFiles(db, db.objects.ids, exists'), k, k);
            cut.ContentAt(id) == None <==> exists other :: other !in cut.objects.rows && SameRow(db, other, id)
  {
    hide Table.Valid;
    var files := GoneFiles(db, db.objects.ids, exists');
    var cut := CutAt(db, files, k, k);
    GoneFilesListed(db, db.objects.ids, exists');
    DeleteAllRows(db, files[..k]);
    hide GoneFiles, DeleteAll;
    assert forall f :: f in files[..k] ==> f in files;
    if cut.ContentAt(id) == None {
      var f :| f in files[..k] && f.1 == db.objects.rows[id].metaData;
      assert f.0 !in cut.objects.rows && SameRow(db, f.0, id);
    }
    if other :| other !in cut.objects.rows && SameRow(db, other, id) {
      var f :| f in files[..k] && f.0 == other;
      assert f.1 in Seconds(files[..k]);
    }
  }

  lemma GoneIsListed(db: Db, exists': Path -> bool, id: int)
    requires db.Valid() && IsGone(db, id, exists')
    ensures (id, db.objects.rows[id].metaData) in GoneFiles(db, db.objects.ids, exists')
  {
    GoneFilesListed(db, db.objects.ids, exists');
    hide GoneFiles;
  }

  /** After the deletion of the first of two objects of a row, the other one waits. */
  lemma OtherWaits(db: Db, files: seq<(int, int)>, k: nat, deleted: int, other: int)
    requires db.Valid() && 0 < k <= |files| && files[k - 1].0 == deleted != other
    requires other in db.objects.rows && forall f :: f in files[..k - 1] ==> f.0 != other
    ensures var cut := CutAt(db, files, k, k); other in cut.objects.rows && deleted !in cut.objects.rows
  {
    hide Table.Valid;
    CutRows(db, files, k, k);
    hide CutAt;
    assert files[..k] == files[..k - 1] + [files[k - 1]];
    assert files[k - 1] in files[..k];
  }

  /** Two gone objects share a row: after the deletion of the first of them, the other has
      no metadata, and no prune from then on leads to what the whole prune would leave. */
  lemma SharedRowIsStranded(db: Db, exists': Path -> bool, i: int, j: int) returns (cut: Db, stranded: int)
    requires db.Valid() && i != j && IsGone(db, i, exists') && IsGone(db, j, exists') && SameRow(db, i, j)
    ensures IsCut(db, cut, exists') && (stranded == i || stranded == j)
    ensures IsWaiting(db, cut, stranded, exists') && cut.ContentAt(stranded) == None
    ensures cut.objects.rows[stranded] == db.objects.rows[stranded]
    ensures forall db' :: IsPruned(cut, db', exists') ==> !IsPruned(db, db', exists')
  {
    hide Table.Valid, IsPruned, GoneFiles, CutAt, IsGone, IsPartOfPrune, Db.ContentAt;
    var files := GoneFiles(db, db.objects.ids, exists');
    GoneIsListed(db, exists', i);
    GoneIsListed(db, exists', j);
    var k := FirstDeletion(files, i, j);
    cut := CutAt(db, files, k, k);
    assert IsCutAt(db, cut, exists', k, k);
    var deleted := files[k - 1].0;
    stranded := if deleted == i then j else i;
    OtherWaits(db, files, k, deleted, stranded);
    assert SameRow(db, deleted, stranded);
    StrandedExactly(db, exists', k, stranded);
    CutIsPart(db, cut, exists');
    MetadataIsLost(db, cut, exists', stranded);
    forall db' | IsPruned(cut, db', exists')
      ensures !IsPruned(db, db', exists')
    {
      PruneAfterCutExactly(db, cut, db', exists');
    }
  }

  lemma MetadataIsLost(db: Db, cut: Db, exists': Path -> bool, id: int)
    requires IsPartOfPrune(db, cut, exists') && IsWaiting(db, cut, id, exists') && cut.ContentAt(id) == None
    ensures !HasMetadata(db, cut, id) && cut.objects.rows[id] == db.objects.rows[id]
  {
    hide Table.Valid, IsGone, IsMetadataOfDeleted;
  }

  /** The deletion that is the first one of either object. */
  lemma {:induction false} FirstDeletion(files: seq<(int, int)>, i: int, j: int) returns (k: nat)
    requires exists f :: f in files && (f.0 == i || f.0 == j)
    ensures 0 < k <= |files| && (files[k - 1].0 == i || files[k - 1].0 == j)
    ensures forall f :: f in files[..k - 1] ==> f.0 != i && f.0 != j
  {
    var n := |files| - 1;
    if exists f :: f in files[..n] && (f.0 == i || f.0 == j) {
      k := FirstDeletion(files[..n], i, j);
      assert files[..n][..k - 1] == files[..k - 1];
    } else {
      k := |files|;
    }
  }

  // ----- A song and its copy under an album -----

  /** A file that waits to be deleted without its metadata. */
  ghost predicate IsStrandedFile(db: Db, cut: Db, id: int, exists': Path -> bool) {
    && IsWaiting(db, cut, id, exists')
    && cut.ContentAt(id) == None && !cut.objects.rows[id].upnpClass.IsContainer()
  }

  /** In every library, a cut in the prune of a song that names an album can take the
      metadata from the song or from its copy. */
  lemma SongIsStranded(db: Db, exists': Path -> bool, id: int) returns (cut: Db, stranded: int)
    requires IsLibrary(db) && IsTaggedSong(db, id) && IsGone(db, id, exists')
    ensures IsCut(db, cut, exists') && IsStrandedFile(db, cut, stranded, exists')
    ensures forall db' :: IsPruned(cut, db', exists') ==> !IsPruned(db, db', exists')
  {
    hide IsLibrary, IsTaggedSong, IsCopyOf, IsPruned, IsCut, IsGone, IsWaiting;
    var copy := SongsAreListed(db, id);
    LibraryIsSound(db);
    SoundIsValid(db);
    hide IsSound, Db.Valid, Db.ContentAt;
    CopyIsGone(db, exists', id, copy);
    cut, stranded := SharedRowIsStranded(db, exists', id, copy);
    WaitingHasRow(db, cut, exists', stranded);
  }

  lemma CopyIsGone(db: Db, exists': Path -> bool, id: int, copy: int)
    requires IsCopyOf(db, copy, id) && IsGone(db, id, exists')
    ensures copy != id && IsGone(db, copy, exists') && SameRow(db, id, copy)
    ensures db.objects.rows[copy].upnpClass == AudioItem == db.objects.rows[id].upnpClass
  {
    hide Db.IsAlbum;
  }

  lemma WaitingHasRow(db: Db, cut: Db, exists': Path -> bool, id: int)
    requires IsWaiting(db, cut, id, exists')
    ensures id in cut.objects.rows && id in db.objects.rows
  {
  }
}
