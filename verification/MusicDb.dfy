/** The library database: a table of objects and a table of metadata, and the
    queries on them.

    A table keeps its rows by row id; `ids` lists the ids in ascending order, the
    order in which selects return them.  An insert takes the id after the largest. */
module MusicDatabase {
  import opened Basics

  /** The components of a path; the empty path stands for the empty string. */
  type Path = seq<string>

  datatype UpnpClass = Container | StorageFolder | MusicAlbum | AudioItem | VideoItem | ImageItem {
    predicate IsContainer() {
      Container? || StorageFolder? || MusicAlbum?
    }
  }

  datatype AudioProperties = AudioProperties(duration: nat, nrChannels: nat, bitrate: nat, sampleRate: nat)

  datatype LibraryItem = LibraryItem(objectId: int, parentId: int, refId: int, name: string, upnpClass: UpnpClass)

  datatype LibraryMetadata = LibraryMetadata(
    artist: string, title: string, album: string, albumArtist: string, genre: string, path: Path, mimeType: string,
    thumbnail: string, audio: AudioProperties, fileSize: nat, modifiedTime: nat)

  // ----- Rows -----

  datatype ObjectRow = ObjectRow(parentId: int, refId: Option<int>, name: string, upnpClass: UpnpClass, metaData: int)

  datatype Content = Content(
    modifiedTime: nat, filePath: Option<Path>, fileSize: nat, title: Option<string>, artist: Option<string>,
    album: Option<string>, albumArtist: Option<string>, genre: Option<string>, mimeType: Option<string>,
    audio: AudioProperties, thumbnail: Option<string>)

  /** A trivial value is stored as NULL. */
  function Tvin(s: string): Option<string> {
    if s == "" then None else Some(s)
  }

  function ContentOf(meta: LibraryMetadata): Content {
    Content(meta.modifiedTime, if meta.path == [] then None else Some(meta.path), meta.fileSize, Tvin(meta.title),
            Tvin(meta.artist), Tvin(meta.album), Tvin(meta.albumArtist), Tvin(meta.genre), Tvin(meta.mimeType),
            meta.audio, Tvin(meta.thumbnail))
  }

  function RowOf(item: LibraryItem, metaId: int): ObjectRow {
    ObjectRow(item.parentId, if item.refId == 0 then None else Some(item.refId), item.name, item.upnpClass, metaId)
  }

  /** The row says of an object what the item says; no reference is stored as NULL. */
  ghost predicate HoldsItem(row: ObjectRow, item: LibraryItem) {
    && row.parentId == item.parentId && row.name == item.name && row.upnpClass == item.upnpClass
    && (if item.refId == 0 then row.refId == None else row.refId == Some(item.refId))
  }

  // ----- Tables -----

  datatype Table<R> = Table(ids: seq<int>, rows: map<int, R>) {
    ghost predicate Valid() {
      && Ascending(ids)
      && (forall id :: id in ids <==> id in rows)
    }

    function NextId(): int {
      if ids == [] then 1 else ids[|ids| - 1] + 1
    }

    function Insert(row: R): Table<R> {
      Table(ids + [NextId()], rows[NextId() := row])
    }

    function InsertWithId(id: int, row: R): Table<R> {
      Table(Filter(ids, x => x < id) + [id] + Filter(ids, x => x > id), rows[id := row])
    }

    function Delete(id: int): Table<R> {
      Table(Filter(ids, x => x != id), rows - {id})
    }
  }

  ghost predicate Ascending(ids: seq<int>) {
    forall i, j :: 0 <= i < j < |ids| ==> ids[i] < ids[j]
  }

  function Filter(ids: seq<int>, p: int -> bool): (r: seq<int>)
    ensures forall x :: x in r <==> x in ids && p(x)
  {
    if ids == [] then []
    else
      var front := Filter(ids[..|ids| - 1], p);
      if p(ids[|ids| - 1]) then front + [ids[|ids| - 1]] else front
  }

  lemma {:induction false} FilterAscending(ids: seq<int>, p: int -> bool)
    requires Ascending(ids)
    ensures Ascending(Filter(ids, p))
  {
    if ids != [] {
      var front, last := Filter(ids[..|ids| - 1], p), ids[|ids| - 1];
      FilterAscending(ids[..|ids| - 1], p);
      forall k | 0 <= k < |front|
        ensures front[k] < last
      {
        assert front[k] in ids[..|ids| - 1];
      }
    }
  }

  lemma InsertKeepsValid<R>(t: Table<R>, row: R)
    requires t.Valid()
    ensures t.Insert(row).Valid() && t.NextId() !in t.rows
    ensures forall id :: id in t.rows ==> id < t.NextId()
  {
    var t' := t.Insert(row);
    assert forall k :: 0 <= k < |t.ids| ==> t.ids[k] <= t.ids[|t.ids| - 1];
    assert forall id :: id in t'.ids <==> id in t.ids || id == t.NextId();
  }

  lemma InsertWithIdKeepsValid<R>(t: Table<R>, id: int, row: R)
    requires t.Valid() && id !in t.rows
    ensures t.InsertWithId(id, row).Valid()
  {
    var low, high := Filter(t.ids, x => x < id), Filter(t.ids, x => x > id);
    var t' := t.InsertWithId(id, row);
    FilterAscending(t.ids, x => x < id);
    FilterAscending(t.ids, x => x > id);
    hide Filter;
    assert t'.ids == low + [id] + high;
    assert forall k :: 0 <= k < |low| ==> low[k] in low;
    assert forall k :: 0 <= k < |high| ==> high[k] in high;
    AscendingConcat(low, id, high);
    assert forall x :: x in t'.ids <==> x in low || x == id || x in high;
  }

  lemma AscendingConcat(low: seq<int>, id: int, high: seq<int>)
    requires Ascending(low) && Ascending(high)
    requires (forall k :: 0 <= k < |low| ==> low[k] < id) && (forall k :: 0 <= k < |high| ==> id < high[k])
    ensures Ascending(low + [id] + high)
  {
  }

  lemma DeleteKeepsValid<R>(t: Table<R>, id: int)
    requires t.Valid()
    ensures t.Delete(id).Valid()
  {
    FilterAscending(t.ids, x => x != id);
  }

  // ----- The database as a value -----

  datatype ItemStatus = DoesntExist | NeedsUpdate | UpToDate

  datatype Db = Db(objects: Table<ObjectRow>, metadata: Table<Content>) {
    ghost predicate Valid() {
      objects.Valid() && metadata.Valid()
    }

    /** The left outer join of an object with its metadata. */
    function ContentAt(id: int): Option<Content> {
      if id in objects.rows && objects.rows[id].metaData in metadata.rows
      then Some(metadata.rows[objects.rows[id].metaData])
      else None
    }

    predicate HasPath(id: int, path: Path) {
      ContentAt(id).Some? && ContentAt(id).value.filePath == Some(path)
    }

    predicate IsAlbum(id: int, title: string, artist: Option<string>) {
      && ContentAt(id).Some? && ContentAt(id).value.artist == artist
      && objects.rows[id].upnpClass == MusicAlbum && objects.rows[id].name == title
    }

    predicate IsChild(id: int, parentId: int) {
      id in objects.rows && objects.rows[id].parentId == parentId
    }

    /** The children of a container, in id order. */
    function Children(parentId: int): seq<int> {
      Filter(objects.ids, id => IsChild(id, parentId))
    }

    predicate IsRowOf(m: int, path: Path) {
      m in metadata.rows && metadata.rows[m].filePath == Some(path)
    }

    ghost predicate IsFirstRow(path: Path, m: int) {
      IsRowOf(m, path) && forall k :: IsRowOf(k, path) ==> m <= k
    }

    /** The status of a file: whether its path has metadata, and, by the first row that
        has it, whether the file was modified since. */
    ghost predicate HasStatus(path: Path, modifiedTime: nat, status: ItemStatus) {
      match status
      case DoesntExist => forall m :: !IsRowOf(m, path)
      case NeedsUpdate => exists m :: IsFirstRow(path, m) && metadata.rows[m].modifiedTime < modifiedTime
      case UpToDate => exists m :: IsFirstRow(path, m) && metadata.rows[m].modifiedTime >= modifiedTime
    }

    function InsertMetadata(content: Content): Db {
      Db(objects, metadata.Insert(content))
    }

    function InsertObject(row: ObjectRow): Db {
      Db(objects.Insert(row), metadata)
    }
  }

  const EMPTY: Db := Db(Table([], map[]), Table([], map[]))

  /** The objects of one file, sharing a metadata row. */
  function InsertGroup(db: Db, items: seq<LibraryItem>, metaId: int): Db {
    if items == [] then db
    else InsertGroup(db, items[..|items| - 1], metaId).InsertObject(RowOf(items[|items| - 1], metaId))
  }

  /** A buffer of files and the objects that go with each. */
  function InsertAll(db: Db, files: seq<(seq<LibraryItem>, LibraryMetadata)>): Db {
    if files == [] then db
    else
      var before := InsertAll(db, files[..|files| - 1]);
      var (items, meta) := files[|files| - 1];
      InsertGroup(before.InsertMetadata(ContentOf(meta)), items, before.metadata.NextId())
  }

  /** An object whose file is gone. */
  predicate IsGone(db: Db, id: int, exists': Path -> bool) {
    && db.ContentAt(id).Some? && db.ContentAt(id).value.filePath.Some?
    && !exists'(db.ContentAt(id).value.filePath.value)
  }

  type uint32 = x: nat | x < 0x1_0000_0000

  /** At most `limit` elements from `offset` on. */
  function Page<T>(all: seq<T>, offset: nat, limit: nat): seq<T> {
    if offset >= |all| then []
    else if offset + limit >= |all| then all[offset..]
    else all[offset..offset + limit]
  }

  /** A count of 0 asks for everything; the limit is the largest 32-bit number then. */
  function LimitOf(count: uint32): uint32 {
    if count == 0 then 0xFFFF_FFFF else count
  }

  lemma PageOfChildren(db: Db, parentId: int, offset: nat, limit: nat)
    ensures var page := Page(db.Children(parentId), offset, limit);
            && |page| <= limit
            && (forall id :: id in page ==> db.IsChild(id, parentId))
            && (db.Valid() ==> Ascending(page))
  {
    var page := Page(db.Children(parentId), offset, limit);
    if db.Valid() {
      FilterAscending(db.objects.ids, id => db.IsChild(id, parentId));
    }
    assert forall id :: id in page ==> id in db.Children(parentId);
  }

  // ----- The object -----

  class MusicDb {
    var objects: Table<ObjectRow>
    var metadata: Table<Content>

    function View(): Db
      reads this
    {
      Db(objects, metadata)
    }

    constructor ()
      ensures View() == EMPTY
    {
      objects, metadata := Table([], map[]), Table([], map[]);
    }

    method ClearDatabase()
      modifies this
      ensures View() == EMPTY
    {
      objects, metadata := Table([], map[]), Table([], map[]);
    }

    method GetObjectCount() returns (n: nat)
      ensures n == |objects.ids|
    {
      n := |objects.ids|;
    }

    method GetChildCount(id: int) returns (n: nat)
      ensures n == |View().Children(id)|
    {
      n := |View().Children(id)|;
    }

    method AddMetadata(meta: LibraryMetadata) returns (id: int)
      modifies this`metadata
      ensures View() == old(View()).InsertMetadata(ContentOf(meta)) && id == old(metadata.NextId())
    {
      id := metadata.NextId();
      metadata := metadata.Insert(ContentOf(meta));
    }

    method AddItemWithMetaId(item: LibraryItem, metaId: int) returns (id: int)
      modifies this`objects
      ensures View() == old(View()).InsertObject(RowOf(item, metaId)) && id == old(objects.NextId())
    {
      id := objects.NextId();
      objects := objects.Insert(RowOf(item, metaId));
    }

    method AddItem(item: LibraryItem, meta: LibraryMetadata) returns (id: int)
      modifies this
      ensures View() == old(View()).InsertMetadata(ContentOf(meta)).InsertObject(RowOf(item, old(metadata.NextId())))
      ensures id == old(objects.NextId()) && id in objects.rows && HoldsItem(objects.rows[id], item)
    {
      var metaId := AddMetadata(meta);
      id := AddItemWithMetaId(item, metaId);
    }

    /** Adds an object under its own id.  The insert fails if the id is taken; the
        metadata row stays behind then. */
    method AddItemWithId(item: LibraryItem, meta: LibraryMetadata) returns (ok: bool)
      modifies this
      ensures ok == (item.objectId !in old(objects.rows))
      ensures metadata == old(metadata).Insert(ContentOf(meta))
      ensures objects == if ok then old(objects).InsertWithId(item.objectId, RowOf(item, old(metadata.NextId())))
                         else old(objects)
      ensures ok ==> HoldsItem(objects.rows[item.objectId], item)
    {
      var metaId := AddMetadata(meta);
      ok := item.objectId !in objects.rows;
      if ok {
        objects := objects.InsertWithId(item.objectId, RowOf(item, metaId));
      }
    }

    method AddItems(files: seq<(seq<LibraryItem>, LibraryMetadata)>)
      modifies this
      ensures View() == InsertAll(old(View()), files)
    {
      for i := 0 to |files|
        invariant View() == InsertAll(old(View()), files[..i])
      {
        var (items, meta) := files[i];
        assert files[..i + 1][..i] == files[..i];
        var metaId := AddMetadata(meta);
        ghost var start := View();
        for j := 0 to |items|
          invariant View() == InsertGroup(start, items[..j], metaId)
        {
          assert items[..j + 1][..j] == items[..j];
          var _ := AddItemWithMetaId(items[j], metaId);
        }
        assert items[..|items|] == items;
      }
      assert files[..|files|] == files;
    }

    /** The first object that refers to metadata with this path. */
    method ItemExists(filepath: Path) returns (found: bool, objectId: int)
      requires View().Valid()
      ensures found <==> exists id :: View().HasPath(id, filepath)
      ensures found ==> View().HasPath(objectId, filepath) && forall id :: View().HasPath(id, filepath) ==>
              objectId <= id
    {
      var db := View();
      var result := Filter(objects.ids, id => db.HasPath(id, filepath));
      FilterAscending(objects.ids, id => db.HasPath(id, filepath));
      assert forall id :: db.HasPath(id, filepath) ==> id in result;
      found, objectId := false, 0;
      if result != [] {
        found, objectId := true, result[0];
        assert result[0] in result;
      }
    }

    /** The first album with this title and album artist; no artist is NULL. */
    method AlbumExists(title: string, artist: string) returns (found: bool, objectId: int)
      requires View().Valid()
      ensures found <==> exists id :: View().IsAlbum(id, title, Tvin(artist))
      ensures found ==> View().IsAlbum(objectId, title, Tvin(artist))
    {
      var db := View();
      var result;
      if artist == "" {
        result := Filter(objects.ids, id => db.IsAlbum(id, title, None));
      } else {
        result := Filter(objects.ids, id => db.IsAlbum(id, title, Some(artist)));
      }
      assert forall id :: db.IsAlbum(id, title, Tvin(artist)) ==> id in result;
      found, objectId := false, 0;
      if result != [] {
        found, objectId := true, result[0];
        assert result[0] in result;
      }
    }

    method GetItemStatus(filepath: Path, modifiedTime: nat) returns (status: ItemStatus)
      requires View().Valid()
      ensures View().HasStatus(filepath, modifiedTime, status)
    {
      var rows := metadata.rows;
      var result := Filter(metadata.ids, m => m in rows && rows[m].filePath == Some(filepath));
      FilterAscending(metadata.ids, m => m in rows && rows[m].filePath == Some(filepath));
      assert forall m :: m in metadata.rows && metadata.rows[m].filePath == Some(filepath) ==> m in result;
      if result == [] {
        return DoesntExist;
      }
      assert result[0] in result;
      assert View().IsFirstRow(filepath, result[0]);
      return if metadata.rows[result[0]].modifiedTime < modifiedTime then NeedsUpdate else UpToDate;
    }

    /** None where the source throws; NULL reads as the empty path. */
    method GetItemPath(objectId: int) returns (path: Option<Path>)
      ensures path == match View().ContentAt(objectId)
                      case None => None
                      case Some(c) => Some(if c.filePath.Some? then c.filePath.value else [])
      ensures forall p: Path :: p != [] ==> (path == Some(p) <==> View().HasPath(objectId, p))
    {
      var row := View().ContentAt(objectId);
      if row == None {
        return None;
      }
      return Some(if row.value.filePath.Some? then row.value.filePath.value else []);
    }

    /** A page of the children of a container. */
    method GetItems(parentId: int, offset: uint32, count: uint32) returns (items: seq<int>)
      ensures items == Page(View().Children(parentId), offset, LimitOf(count))
      ensures |items| <= LimitOf(count) && forall id :: id in items ==> View().IsChild(id, parentId)
      ensures View().Valid() ==> Ascending(items)
    {
      items := Page(View().Children(parentId), offset, LimitOf(count));
      PageOfChildren(View(), parentId, offset, LimitOf(count));
    }

    method RemoveItem(id: int)
      modifies this`objects
      ensures objects == old(objects).Delete(id)
    {
      objects := objects.Delete(id);
    }

    method RemoveMetaData(id: int)
      modifies this`metadata
      ensures metadata == old(metadata).Delete(id)
    {
      metadata := metadata.Delete(id);
    }

    /** Removes every object whose file is gone, and the metadata it refers to.  Any of the
        deletions may fail; what was deleted until then stays deleted. */
    method RemoveNonExistingFiles(exists': Path -> bool) returns (done: bool)
      requires View().Valid()
      modifies this
      ensures done ==> IsPruned(old(View()), View(), exists')
      ensures IsCut(old(View()), View(), exists')
    {
      hide Table.Delete, IsGone, Table.Valid;
      var db := View();
      GoneHaveRows(db, exists');
      var files: seq<(int, int)> := [];
      for k := 0 to |db.objects.ids|
        invariant View() == db
        invariant files == GoneFiles(db, db.objects.ids[..k], exists')
      {
        var id := db.objects.ids[k];
        assert db.objects.ids[..k + 1][..k] == db.objects.ids[..k];
        if IsGone(db, id, exists') {
          files := files + [(id, db.objects.rows[id].metaData)];
        }
      }
      assert db.objects.ids[..|db.objects.ids|] == db.objects.ids;
      for k := 0 to |files|
        invariant View() == CutAt(db, files, k, k)
      {
        OneMoreDeleted(db, files, k);
        if * {
          assert IsCutAt(db, View(), exists', k, k);
          return false;
        }
        RemoveItem(files[k].0);
        if * {
          assert IsCutAt(db, View(), exists', k + 1, k);
          return false;
        }
        RemoveMetaData(files[k].1);
      }
      assert files[..|files|] == files;
      GoneFilesListed(db, db.objects.ids, exists');
      DeletingGoneFilesPrunes(db, files, exists');
      assert IsCutAt(db, View(), exists', |files|, |files|);
      return true;
    }
  }

  // ----- Pruning -----

  /** Exactly the objects without a path or with an existing path are left, and
      exactly the metadata that no removed object refers to; what is left is as before. */
  ghost predicate IsPruned(db: Db, db': Db, exists': Path -> bool) {
    && db'.Valid()
    && (forall id :: id in db'.objects.rows <==> id in db.objects.rows && !IsGone(db, id, exists'))
    && (forall id :: id in db'.objects.rows ==> db'.objects.rows[id] == db.objects.rows[id])
    && (forall m :: m in db'.metadata.rows <==> m in db.metadata.rows && !IsMetadataOfGone(db, m, exists'))
    && (forall m :: m in db'.metadata.rows ==> db'.metadata.rows[m] == db.metadata.rows[m])
  }

  ghost predicate IsMetadataOfGone(db: Db, m: int, exists': Path -> bool) {
    exists id :: IsGone(db, id, exists') && db.objects.rows[id].metaData == m
  }

  function DeleteAll(db: Db, files: seq<(int, int)>): Db {
    if files == [] then db
    else
      var before := DeleteAll(db, files[..|files| - 1]);
      Db(before.objects.Delete(files[|files| - 1].0), before.metadata.Delete(files[|files| - 1].1))
  }

  /** The objects whose file is gone, with the metadata they refer to, in id order. */
  function GoneFiles(db: Db, ids: seq<int>, exists': Path -> bool): seq<(int, int)> {
    if ids == [] then []
    else
      var front, id := GoneFiles(db, ids[..|ids| - 1], exists'), ids[|ids| - 1];
      if IsGone(db, id, exists') then front + [(id, db.objects.rows[id].metaData)] else front
  }

  /** The tables when `i` of the listed objects are deleted, and the metadata of `k` of them. */
  function CutAt(db: Db, files: seq<(int, int)>, i: nat, k: nat): Db
    requires i <= |files| && k <= |files|
  {
    Db(DeleteAll(db, files[..i]).objects, DeleteAll(db, files[..k]).metadata)
  }

  /** A prune that was cut short, or not: some objects at the front of the list are deleted,
      and their metadata, but for that of the last one perhaps. */
  ghost predicate IsCut(db: Db, db': Db, exists': Path -> bool) {
    exists i: nat, k: nat ::
      k <= i <= k + 1 && IsCutAt(db, db', exists', i, k)
  }

  ghost predicate IsCutAt(db: Db, db': Db, exists': Path -> bool, i: nat, k: nat) {
    var files := GoneFiles(db, db.objects.ids, exists');
    i <= |files| && k <= |files| && db' == CutAt(db, files, i, k)
  }

  lemma OneMoreDeleted(db: Db, files: seq<(int, int)>, k: nat)
    requires k < |files|
    ensures CutAt(db, files, k + 1, k) ==
            Db(CutAt(db, files, k, k).objects.Delete(files[k].0), CutAt(db, files, k, k).metadata)
    ensures CutAt(db, files, k + 1, k + 1) ==
            Db(CutAt(db, files, k + 1, k).objects, CutAt(db, files, k, k).metadata.Delete(files[k].1))
  {
    hide Table.Delete;
    assert files[..k + 1][..k] == files[..k];
  }

  lemma {:induction false} GoneFilesListed(db: Db, ids: seq<int>, exists': Path -> bool)
    ensures forall f :: f in GoneFiles(db, ids, exists') <==>
                        f.0 in ids && IsGone(db, f.0, exists') && f.1 == db.objects.rows[f.0].metaData
  {
    if ids != [] {
      GoneFilesListed(db, ids[..|ids| - 1], exists');
      hide IsGone;
    }
  }

  function Firsts(files: seq<(int, int)>): set<int> {
    set f | f in files :: f.0
  }

  function Seconds(files: seq<(int, int)>): set<int> {
    set f | f in files :: f.1
  }

  lemma ProjectionsOfSnoc(front: seq<(int, int)>, last: (int, int))
    ensures Firsts(front + [last]) == Firsts(front) + {last.0}
    ensures Seconds(front + [last]) == Seconds(front) + {last.1}
  {
  }

  lemma {:induction false} DeleteAllRows(db: Db, files: seq<(int, int)>)
    requires db.Valid()
    ensures var db' := DeleteAll(db, files);
            && db'.Valid()
            && db'.objects.rows == db.objects.rows - Firsts(files)
            && db'.metadata.rows == db.metadata.rows - Seconds(files)
  {
    if files == [] {
      return;
    }
    var front, last := files[..|files| - 1], files[|files| - 1];
    DeleteAllRows(db, front);
    var before := DeleteAll(db, front);
    assert DeleteAll(db, files) == Db(before.objects.Delete(last.0), before.metadata.Delete(last.1));
    hide Firsts, Seconds, Filter, Table.Valid, DeleteAll;
    DeleteKeepsValid(before.objects, last.0);
    DeleteKeepsValid(before.metadata, last.1);
    assert files == front + [last];
    ProjectionsOfSnoc(front, last);
    MinusUnion(db.objects.rows, Firsts(front), last.0);
    MinusUnion(db.metadata.rows, Seconds(front), last.1);
  }

  lemma MinusUnion<R>(rows: map<int, R>, ids: set<int>, id: int)
    ensures rows - ids - {id} == rows - (ids + {id})
  {
  }

  lemma DeletingGoneFilesPrunes(db: Db, files: seq<(int, int)>, exists': Path -> bool)
    requires db.Valid()
    requires forall f :: f in files <==>
             f.0 in db.objects.ids && IsGone(db, f.0, exists') && f.1 == db.objects.rows[f.0].metaData
    ensures IsPruned(db, DeleteAll(db, files), exists')
  {
    DeleteAllRows(db, files);
    hide IsGone, DeleteAll;
    var db', gone, metas := DeleteAll(db, files), Firsts(files), Seconds(files);
    forall id | id in db.objects.rows
      ensures id in gone <==> IsGone(db, id, exists')
    {
      assert (id, db.objects.rows[id].metaData) in files <==> IsGone(db, id, exists');
    }
    GoneHaveRows(db, exists');
    forall m | m in db.metadata.rows
      ensures m in metas <==> IsMetadataOfGone(db, m, exists')
    {
      if id :| IsGone(db, id, exists') && db.objects.rows[id].metaData == m {
        assert (id, m) in files;
      }
    }
  }

  lemma GoneHaveRows(db: Db, exists': Path -> bool)
    ensures forall id :: IsGone(db, id, exists') ==> id in db.objects.rows
  {
  }
}
