/** What the rows of the library database mean, free of row ids.

    Every object is one of four things: a fixed container of the layout, a directory
    or file under the library path, an album, or a song listed under its album.  The
    index of a database tells for each of these things where it hangs and what is
    known about it; two databases with the same index differ only in row ids. */
module LibraryIndex {
  import opened Basics
  import opened MusicDatabase

  datatype Ident =
    | Layout(id: int)
    | Node(path: Path)
    | Album(name: string, artist: Option<string>)
    | AlbumTrack(path: Path)

  datatype Entry = Entry(parent: Ident, name: string, upnpClass: UpnpClass, content: Content)

  type Index = map<Ident, Entry>

  // ----- From rows to the index -----

  /** Tables are in order, and references lead somewhere: every object but the root
      to a parent with a smaller id, every object to metadata. */
  ghost predicate Linked(db: Db) {
    && db.Valid()
    && forall id :: id in db.objects.rows ==> LinkedRow(db, id, db.objects.rows[id])
  }

  ghost predicate LinkedRow(db: Db, id: int, row: ObjectRow) {
    && id >= 0
    && row.metaData in db.metadata.rows
    && if id == 0 then row.parentId == -1 else row.parentId in db.objects.rows && row.parentId < id
  }

  /** What an object with these columns is. */
  ghost function IdentFor(db: Db, id: int, row: ObjectRow, content: Content): Ident {
    if row.upnpClass == MusicAlbum then Album(row.name, content.artist)
    else if content.filePath == None then Layout(id)
    else if row.parentId in db.objects.rows && db.objects.rows[row.parentId].upnpClass == MusicAlbum
    then AlbumTrack(content.filePath.value)
    else Node(content.filePath.value)
  }

  /** What an object is; a missing one counts as part of the layout. */
  ghost function IdentOf(db: Db, id: int): Ident {
    match db.ContentAt(id)
    case None => Layout(id)
    case Some(content) => IdentFor(db, id, db.objects.rows[id], content)
  }

  ghost function EntryFor(db: Db, row: ObjectRow, content: Content): Entry {
    Entry(IdentOf(db, row.parentId), row.name, row.upnpClass, content)
  }

  const NO_CONTENT: Content :=
    Content(0, None, 0, None, None, None, None, None, None, AudioProperties(0, 0, 0, 0), None)

  ghost function EntryOf(db: Db, id: int): Entry {
    match db.ContentAt(id)
    case None => Entry(Layout(id), "", Container, NO_CONTENT)
    case Some(content) => EntryFor(db, db.objects.rows[id], content)
  }

  /** No two objects are the same thing. */
  ghost predicate Injective(db: Db) {
    forall i, j :: i in db.objects.rows && j in db.objects.rows && IdentOf(db, i) == IdentOf(db, j) ==> i == j
  }

  /** Empty if two objects are the same thing. */
  ghost function IndexOf(db: Db): Index {
    if Injective(db) then map id | id in db.objects.rows :: IdentOf(db, id) := EntryOf(db, id) else map[]
  }

  /** A path has at most one row of metadata. */
  ghost predicate PathsUnique(db: Db) {
    forall m, n ::
      (m in db.metadata.rows && n in db.metadata.rows && db.metadata.rows[m].filePath.Some?
       && db.metadata.rows[m].filePath == db.metadata.rows[n].filePath) ==> m == n
  }

  /** Every row of metadata belongs to some object. */
  ghost predicate AllReferenced(db: Db) {
    forall m :: m in db.metadata.rows ==> IsReferenced(db, m)
  }

  ghost predicate IsReferenced(db: Db, m: int) {
    exists id :: id in db.objects.rows && db.objects.rows[id].metaData == m
  }

  ghost predicate Core(db: Db) {
    Linked(db) && Injective(db) && PathsUnique(db) && AllReferenced(db)
  }

  // ----- Growing the database -----

  /** Rows are only added. */
  ghost predicate Extends(db: Db, db': Db) {
    && db.objects.ids <= db'.objects.ids && db.metadata.ids <= db'.metadata.ids
    && (forall id :: id in db.objects.rows ==> id in db'.objects.rows && db'.objects.rows[id] == db.objects.rows[id])
    && (forall m :: m in db.metadata.rows ==> m in db'.metadata.rows && db'.metadata.rows[m] == db.metadata.rows[m])
  }

  /** Rows are only added, and they add `added` to the index. */
  ghost predicate Grows(db: Db, db': Db, added: Index) {
    Linked(db') && Injective(db') && Extends(db, db') && IndexOf(db') == IndexOf(db) + added
  }

  lemma GrowsTransitive(a: Db, b: Db, c: Db, added: Index, added': Index)
    requires Grows(a, b, added) && Grows(b, c, added')
    ensures Grows(a, c, added + added')
  {
    hide Linked, Injective, IndexOf;
    assert IndexOf(a) + added + added' == IndexOf(a) + (added + added');
  }

  lemma IdentStaysAt(db: Db, db': Db, id: int)
    requires Linked(db) && Linked(db') && Extends(db, db')
    requires id in db.objects.rows
    ensures IdentOf(db', id) == IdentOf(db, id)
  {
    hide Table.Valid;
    var row := db.objects.rows[id];
    assert LinkedRow(db, id, row);
    assert db'.ContentAt(id) == db.ContentAt(id);
    assert row.parentId in db.objects.rows || id == 0;
    if id == 0 {
      NoRowBelow(db, -1);
      NoRowBelow(db', -1);
    }
  }

  lemma EntryStaysAt(db: Db, db': Db, id: int)
    requires Linked(db) && Linked(db') && Extends(db, db')
    requires id in db.objects.rows
    ensures EntryOf(db', id) == EntryOf(db, id)
  {
    var parentId := db.objects.rows[id].parentId;
    assert LinkedRow(db, id, db.objects.rows[id]);
    assert LinkedRow(db', id, db'.objects.rows[id]);
    if parentId in db.objects.rows {
      IdentStaysAt(db, db', parentId);
    } else {
      NoRowBelow(db', parentId);
    }
    hide IdentOf, Linked;
  }

  lemma NoRowBelow(db: Db, id: int)
    requires Linked(db) && id < 0
    ensures id !in db.objects.rows
  {
    assert id in db.objects.rows ==> LinkedRow(db, id, db.objects.rows[id]);
  }

  lemma IdentsStay(db: Db, db': Db)
    requires Linked(db) && Linked(db') && Extends(db, db')
    ensures forall id :: id in db.objects.rows ==>
            IdentOf(db', id) == IdentOf(db, id) && EntryOf(db', id) == EntryOf(db, id)
  {
    hide IdentOf, EntryOf, Linked, Extends;
    forall id | id in db.objects.rows
      ensures IdentOf(db', id) == IdentOf(db, id) && EntryOf(db', id) == EntryOf(db, id)
    {
      IdentStaysAt(db, db', id);
      EntryStaysAt(db, db', id);
    }
  }

  /** `m` lists exactly the entries of the objects in `ids`. */
  ghost predicate Tabulates(m: Index, ids: set<int>, ident: map<int, Ident>, entry: map<int, Entry>)
    requires ident.Keys == entry.Keys == ids
  {
    && (forall id :: id in ids ==> ident[id] in m && m[ident[id]] == entry[id])
    && (forall i :: i in m ==> exists id :: id in ids && ident[id] == i)
  }

  ghost function Idents(db: Db): map<int, Ident> {
    map id | id in db.objects.rows :: IdentOf(db, id)
  }

  ghost function Entries(db: Db): map<int, Entry> {
    map id | id in db.objects.rows :: EntryOf(db, id)
  }

  /** The objects of a database and the entries of its index are in step. */
  lemma IndexTabulates(db: Db)
    requires Injective(db)
    ensures Tabulates(IndexOf(db), db.objects.rows.Keys, Idents(db), Entries(db))
  {
    hide IdentOf, EntryOf;
  }

  lemma TableGrows(m: Index, m': Index, ids: set<int>, id: int, ident: map<int, Ident>, entry: map<int, Entry>,
                   ident': map<int, Ident>, entry': map<int, Entry>)
    requires ident.Keys == entry.Keys == ids && ident'.Keys == entry'.Keys == ids + {id}
    requires Tabulates(m, ids, ident, entry) && Tabulates(m', ids + {id}, ident', entry')
    requires forall k :: k in ids ==> ident'[k] == ident[k] && entry'[k] == entry[k]
    requires id !in ids && ident'[id] !in m
    ensures m' == m + map[ident'[id] := entry'[id]]
  {
  }

  lemma IdentsOf(db: Db, id: int)
    requires id in db.objects.rows
    ensures Idents(db).Keys == Entries(db).Keys == db.objects.rows.Keys
    ensures Idents(db)[id] == IdentOf(db, id) && Entries(db)[id] == EntryOf(db, id)
  {
    hide IdentOf, EntryOf;
  }

  lemma TablesStay(db: Db, db': Db)
    requires forall id :: id in db.objects.rows ==>
             id in db'.objects.rows && IdentOf(db', id) == IdentOf(db, id) && EntryOf(db', id) == EntryOf(db, id)
    ensures Idents(db).Keys == Entries(db).Keys == db.objects.rows.Keys
    ensures forall id :: id in db.objects.rows ==>
             id in Idents(db') && id in Entries(db')
             && Idents(db')[id] == Idents(db)[id] && Entries(db')[id] == Entries(db)[id]
  {
    hide IdentOf, EntryOf;
  }

  lemma IndexGrows(db: Db, db': Db, id: int)
    requires Linked(db) && Injective(db) && Linked(db') && Extends(db, db')
    requires id !in db.objects.rows && db'.objects.rows.Keys == db.objects.rows.Keys + {id}
    requires IdentOf(db', id) !in IndexOf(db)
    ensures Grows(db, db', map[IdentOf(db', id) := EntryOf(db', id)])
  {
    hide IdentOf, EntryOf, Linked, IndexOf, Extends, Injective, Tabulates;
    IdentsStay(db, db');
    IndexTabulates(db);
    StillInjective(db, db', id);
    IndexTabulates(db');
    TablesStay(db, db');
    IdentsOf(db', id);
    hide Idents, Entries;
    TableGrows(IndexOf(db), IndexOf(db'), db.objects.rows.Keys, id, Idents(db), Entries(db), Idents(db'), Entries(db'));
  }

  lemma OldIdentIndexed(db: Db, db': Db, id: int)
    requires Linked(db) && Injective(db) && Linked(db') && Extends(db, db') && id in db.objects.rows
    ensures IdentOf(db', id) == IdentOf(db, id) && IdentOf(db, id) in IndexOf(db)
  {
    IdentsStay(db, db');
    IndexTabulates(db);
    hide IdentOf, EntryOf, Linked, Extends, IndexOf, Injective;
    assert Idents(db)[id] in IndexOf(db);
  }

  lemma StillInjective(db: Db, db': Db, id: int)
    requires Linked(db) && Injective(db) && Linked(db') && Extends(db, db')
    requires id !in db.objects.rows && db'.objects.rows.Keys == db.objects.rows.Keys + {id}
    requires IdentOf(db', id) !in IndexOf(db)
    ensures Injective(db')
  {
    hide IdentOf, Linked, Extends, IndexOf;
    forall i, j | i in db'.objects.rows && j in db'.objects.rows && IdentOf(db', i) == IdentOf(db', j)
      ensures i == j
    {
      if i != id {
        OldIdentIndexed(db, db', i);
      }
      if j != id {
        OldIdentIndexed(db, db', j);
      }
    }
  }

  // ----- One more row -----

  lemma InsertedMetadata(db: Db, content: Content)
    requires Linked(db)
    ensures var db' := db.InsertMetadata(content);
            && Linked(db') && Extends(db, db') && db'.objects == db.objects
            && db.metadata.NextId() !in db.metadata.rows
            && db'.metadata.rows == db.metadata.rows[db.metadata.NextId() := content]
  {
    InsertKeepsValid(db.metadata, content);
    hide Table.Valid;
    var db' := db.InsertMetadata(content);
    forall id | id in db'.objects.rows
      ensures LinkedRow(db', id, db'.objects.rows[id])
    {
      assert LinkedRow(db, id, db.objects.rows[id]);
    }
  }

  lemma SameObjectsSameIndex(db: Db, db': Db)
    requires Injective(db) && db'.objects == db.objects
    requires forall id :: id in db.objects.rows ==>
             IdentOf(db', id) == IdentOf(db, id) && EntryOf(db', id) == EntryOf(db, id)
    ensures Injective(db') && IndexOf(db') == IndexOf(db)
  {
    hide IdentOf, EntryOf;
  }

  lemma MetadataAddsNothing(db: Db, content: Content)
    requires Linked(db) && Injective(db)
    ensures Grows(db, db.InsertMetadata(content), map[])
  {
    hide IdentOf, EntryOf, Linked, Extends, Db.InsertMetadata, IndexOf, Injective;
    var db' := db.InsertMetadata(content);
    InsertedMetadata(db, content);
    IdentsStay(db, db');
    SameObjectsSameIndex(db, db');
    assert IndexOf(db') == IndexOf(db) + map[];
  }

  lemma InsertedObject(db: Db, row: ObjectRow)
    requires Linked(db) && row.metaData in db.metadata.rows && row.parentId in db.objects.rows
    ensures var db', id := db.InsertObject(row), db.objects.NextId();
            && Linked(db') && Extends(db, db') && db'.metadata == db.metadata
            && id !in db.objects.rows && db'.objects.rows == db.objects.rows[id := row]
  {
    InsertKeepsValid(db.objects, row);
    hide Table.Valid;
    var db', id := db.InsertObject(row), db.objects.NextId();
    assert LinkedRow(db, row.parentId, db.objects.rows[row.parentId]);
    assert row.parentId < id;
    forall k | k in db'.objects.rows
      ensures LinkedRow(db', k, db'.objects.rows[k])
    {
      assert k != id ==> LinkedRow(db, k, db.objects.rows[k]);
    }
  }

  lemma ObjectAddsEntry(db: Db, row: ObjectRow)
    requires Linked(db) && Injective(db) && row.metaData in db.metadata.rows && row.parentId in db.objects.rows
    requires IdentFor(db, db.objects.NextId(), row, db.metadata.rows[row.metaData]) !in IndexOf(db)
    ensures var content, id := db.metadata.rows[row.metaData], db.objects.NextId();
            && Grows(db, db.InsertObject(row), map[IdentFor(db, id, row, content) := EntryFor(db, row, content)])
            && IdentOf(db.InsertObject(row), id) == IdentFor(db, id, row, content)
  {
    var db', id, content := db.InsertObject(row), db.objects.NextId(), db.metadata.rows[row.metaData];
    InsertedObject(db, row);
    IdentsStay(db, db');
    NewRowIs(db, db', id, row);
    hide Linked, Injective, Extends, IdentFor, EntryFor, IdentOf, EntryOf, IndexOf, Grows;
    IndexGrows(db, db', id);
  }

  lemma NewRowIs(db: Db, db': Db, id: int, row: ObjectRow)
    requires Linked(db) && Linked(db') && Extends(db, db') && db'.metadata == db.metadata
    requires row.metaData in db.metadata.rows && row.parentId in db.objects.rows
    requires id !in db.objects.rows && db'.objects.rows == db.objects.rows[id := row]
    ensures IdentOf(db', id) == IdentFor(db, id, row, db.metadata.rows[row.metaData])
    ensures EntryOf(db', id) == EntryFor(db, row, db.metadata.rows[row.metaData])
  {
    IdentsStay(db, db');
    assert db'.ContentAt(id) == Some(db.metadata.rows[row.metaData]);
    hide Linked, Extends, EntryOf;
    assert IdentFor(db', id, row, db.metadata.rows[row.metaData]) ==
        IdentFor(db, id, row, db.metadata.rows[row.metaData]);
    hide IdentFor;
    assert IdentOf(db', row.parentId) == IdentOf(db, row.parentId);
    EntryOfRow(db', id, row);
  }

  lemma EntryOfRow(db: Db, id: int, row: ObjectRow)
    requires id in db.objects.rows && db.objects.rows[id] == row && row.metaData in db.metadata.rows
    ensures EntryOf(db, id) == EntryFor(db, row, db.metadata.rows[row.metaData])
  {
    hide IdentOf;
  }

  // ----- A directory, an album, or a file with its objects -----

  ghost predicate NewPath(db: Db, path: Path) {
    forall m :: m in db.metadata.rows ==> db.metadata.rows[m].filePath != Some(path)
  }

  /** What an item will be: it is an album or has a path, so the row id does not matter. */
  ghost function ItemIdent(db: Db, item: LibraryItem, content: Content): Ident {
    IdentFor(db, -1, RowOf(item, 0), content)
  }

  ghost function ItemEntry(db: Db, item: LibraryItem, content: Content): Entry {
    EntryFor(db, RowOf(item, 0), content)
  }

  ghost predicate HasIdentity(item: LibraryItem, content: Content) {
    item.upnpClass == MusicAlbum || content.filePath.Some?
  }

  lemma ItemRow(db: Db, id: int, item: LibraryItem, m: int, content: Content)
    requires HasIdentity(item, content)
    ensures IdentFor(db, id, RowOf(item, m), content) == ItemIdent(db, item, content)
    ensures EntryFor(db, RowOf(item, m), content) == ItemEntry(db, item, content)
  {
  }

  lemma ItemsStay(db: Db, db': Db, item: LibraryItem, content: Content)
    requires Linked(db) && Linked(db') && Extends(db, db') && item.parentId in db.objects.rows
    ensures ItemIdent(db', item, content) == ItemIdent(db, item, content)
    ensures ItemEntry(db', item, content) == ItemEntry(db, item, content)
  {
    IdentsStay(db, db');
  }

  lemma PathsStayUnique(db: Db, db': Db, m: int, content: Content)
    requires PathsUnique(db) && m !in db.metadata.rows && db'.metadata.rows == db.metadata.rows[m := content]
    requires content.filePath.Some? ==> NewPath(db, content.filePath.value)
    ensures PathsUnique(db')
    ensures forall path :: content.filePath != Some(path) && NewPath(db, path) ==> NewPath(db', path)
  {
  }

  lemma StillReferenced(db: Db, db': Db, m: int)
    requires AllReferenced(db) && Extends(db, db') && db'.metadata.rows.Keys == db.metadata.rows.Keys + {m}
    requires IsReferenced(db', m)
    ensures AllReferenced(db')
  {
    forall k | k in db.metadata.rows
      ensures IsReferenced(db', k)
    {
      assert IsReferenced(db, k);
      var id :| id in db.objects.rows && db.objects.rows[id].metaData == k;
      assert db'.objects.rows[id].metaData == k;
    }
  }

  /** The objects that share a file's metadata, as index entries. */
  ghost function GroupIndex(db: Db, items: seq<LibraryItem>, content: Content): Index {
    if items == [] then map[]
    else
      var last := items[|items| - 1];
      GroupIndex(db, items[..|items| - 1], content) + map[ItemIdent(db, last, content) := ItemEntry(db, last, content)]
  }

  /** The objects of a group can be added: their parents are there, they are not in
      the index, and no two are the same thing. */
  ghost predicate GroupFits(db: Db, items: seq<LibraryItem>, content: Content) {
    && (forall k :: 0 <= k < |items| ==>
          items[k].parentId in db.objects.rows && HasIdentity(items[k], content)
          && ItemIdent(db, items[k], content) !in IndexOf(db))
    && (forall j, k :: 0 <= j < k < |items| ==> ItemIdent(db, items[j], content) != ItemIdent(db, items[k], content))
  }

  lemma {:induction false} GroupIndexKeys(db: Db, items: seq<LibraryItem>, content: Content, i: Ident)
    requires i in GroupIndex(db, items, content)
    ensures exists k :: 0 <= k < |items| && i == ItemIdent(db, items[k], content)
  {
    var n := |items| - 1;
    if i != ItemIdent(db, items[n], content) {
      GroupIndexKeys(db, items[..n], content, i);
    }
  }

  lemma {:induction false} GroupAddsEntries(db: Db, items: seq<LibraryItem>, m: int)
    requires Linked(db) && Injective(db) && m in db.metadata.rows && GroupFits(db, items, db.metadata.rows[m])
    ensures var db' := InsertGroup(db, items, m);
            && Grows(db, db', GroupIndex(db, items, db.metadata.rows[m])) && db'.metadata == db.metadata
            && (items != [] ==> IsReferenced(db', m))
  {
    hide Linked, Injective, IndexOf, ItemIdent, ItemEntry, IdentFor, EntryFor;
    if items == [] {
      assert IndexOf(db) + map[] == IndexOf(db);
      return;
    }
    var content, front, last := db.metadata.rows[m], items[..|items| - 1], items[|items| - 1];
    GroupAddsEntries(db, front, m);
    var before := InsertGroup(db, front, m);
    var row, id := RowOf(last, m), before.objects.NextId();
    GroupLastIsNew(db, before, items, content);
    ItemsStay(db, before, last, content);
    ItemRow(before, id, last, m, content);
    ObjectAddsEntry(before, row);
    InsertedObject(before, row);
    assert before.InsertObject(row).objects.rows[id].metaData == m;
    GrowsTransitive(db, before, before.InsertObject(row), GroupIndex(db, front, content),
                    map[ItemIdent(db, last, content) := ItemEntry(db, last, content)]);
  }

  lemma GroupLastIsNew(db: Db, before: Db, items: seq<LibraryItem>, content: Content)
    requires items != [] && GroupFits(db, items, content)
    requires Grows(db, before, GroupIndex(db, items[..|items| - 1], content))
    ensures ItemIdent(db, items[|items| - 1], content) !in IndexOf(before)
  {
    hide IndexOf, ItemIdent, Linked, Injective, Extends;
    var front, i := items[..|items| - 1], ItemIdent(db, items[|items| - 1], content);
    if i in GroupIndex(db, front, content) {
      GroupIndexKeys(db, front, content, i);
    }
  }

  /** Adding a file: its metadata and the objects that share it. */
  lemma FileAddsEntries(db: Db, items: seq<LibraryItem>, content: Content)
    requires Core(db) && items != [] && GroupFits(db, items, content)
    requires content.filePath.Some? ==> NewPath(db, content.filePath.value)
    ensures var db' := InsertGroup(db.InsertMetadata(content), items, db.metadata.NextId());
            && Core(db') && Grows(db, db', GroupIndex(db, items, content))
            && (forall path :: content.filePath != Some(path) && NewPath(db, path) ==> NewPath(db', path))
  {
    hide Linked, Injective, Extends, IndexOf, PathsUnique, AllReferenced, IsReferenced, NewPath, GroupIndex,
         GroupFits, InsertGroup, Db.InsertMetadata;
    var m, db1 := db.metadata.NextId(), db.InsertMetadata(content);
    InsertedMetadata(db, content);
    MetadataAddsNothing(db, content);
    GroupStaysFit(db, db1, items, content);
    GroupAddsEntries(db1, items, m);
    var db' := InsertGroup(db1, items, m);
    GrowsTransitive(db, db1, db', map[], GroupIndex(db, items, content));
    assert map[] + GroupIndex(db, items, content) == GroupIndex(db, items, content);
    PathsStayUnique(db, db', m, content);
    StillReferenced(db, db', m);
  }

  lemma {:induction false} GroupIndexStays(db: Db, db': Db, items: seq<LibraryItem>, content: Content)
    requires Linked(db) && Linked(db') && Extends(db, db')
    requires forall k :: 0 <= k < |items| ==> items[k].parentId in db.objects.rows
    ensures GroupIndex(db', items, content) == GroupIndex(db, items, content)
  {
    hide Linked, Extends, ItemIdent, ItemEntry;
    if items != [] {
      GroupIndexStays(db, db', items[..|items| - 1], content);
      ItemsStay(db, db', items[|items| - 1], content);
    }
  }

  lemma GroupStaysFit(db: Db, db': Db, items: seq<LibraryItem>, content: Content)
    requires Linked(db) && Linked(db') && Extends(db, db') && GroupFits(db, items, content)
    requires IndexOf(db') == IndexOf(db) + map[]
    ensures GroupFits(db', items, content) && GroupIndex(db', items, content) == GroupIndex(db, items, content)
  {
    hide Linked, ItemIdent, ItemEntry, IndexOf;
    GroupIndexStays(db, db', items, content);
    forall k | 0 <= k < |items|
      ensures ItemIdent(db', items[k], content) == ItemIdent(db, items[k], content)
    {
      ItemsStay(db, db', items[k], content);
    }
  }

  /** A single object with metadata of its own. */
  lemma ItemAddsEntry(db: Db, item: LibraryItem, content: Content)
    requires Core(db) && item.parentId in db.objects.rows && HasIdentity(item, content)
    requires ItemIdent(db, item, content) !in IndexOf(db)
    requires content.filePath.Some? ==> NewPath(db, content.filePath.value)
    ensures var db' := db.InsertMetadata(content).InsertObject(RowOf(item, db.metadata.NextId()));
            && Core(db') && Grows(db, db', map[ItemIdent(db, item, content) := ItemEntry(db, item, content)])
            && db.objects.NextId() in db'.objects.rows
            && IdentOf(db', db.objects.NextId()) == ItemIdent(db, item, content)
            && (forall path :: content.filePath != Some(path) && NewPath(db, path) ==> NewPath(db', path))
  {
    hide Linked, Injective, Extends, IndexOf, PathsUnique, AllReferenced, IsReferenced, NewPath, Grows, RowOf,
         Db.InsertMetadata, Db.InsertObject, ItemIdent, ItemEntry, IdentOf;
    var m, db1 := db.metadata.NextId(), db.InsertMetadata(content);
    assert [item][..0] == [];
    assert InsertGroup(db1, [], m) == db1;
    assert InsertGroup(db1, [item], m) == db1.InsertObject(RowOf(item, m));
    assert GroupIndex(db, [item], content) == map[ItemIdent(db, item, content) := ItemEntry(db, item, content)];
    FileAddsEntries(db, [item], content);
    InsertedItem(db, item, content);
  }

  lemma InsertedItem(db: Db, item: LibraryItem, content: Content)
    requires Linked(db) && Injective(db) && item.parentId in db.objects.rows && HasIdentity(item, content)
    requires ItemIdent(db, item, content) !in IndexOf(db)
    ensures var db' := db.InsertMetadata(content).InsertObject(RowOf(item, db.metadata.NextId()));
            && db.objects.NextId() in db'.objects.rows
            && IdentOf(db', db.objects.NextId()) == ItemIdent(db, item, content)
  {
    hide Linked, Injective, Extends, IndexOf, Db.InsertMetadata, Db.InsertObject, ItemIdent, ItemEntry, IdentOf,
         IdentFor, EntryFor;
    var m, db1 := db.metadata.NextId(), db.InsertMetadata(content);
    InsertedMetadata(db, content);
    MetadataAddsNothing(db, content);
    assert IndexOf(db1) == IndexOf(db) + map[];
    ItemsStay(db, db1, item, content);
    ItemRow(db1, db1.objects.NextId(), item, m, content);
    ObjectAddsEntry(db1, RowOf(item, m));
    InsertedObject(db1, RowOf(item, m));
  }

  // ----- A buffer of files -----

  ghost predicate IsOfPath(i: Ident, path: Path) {
    i == Node(path) || i == AlbumTrack(path)
  }

  /** The objects of a file can be added once its path is new. */
  ghost predicate FileFits(db: Db, items: seq<LibraryItem>, meta: LibraryMetadata) {
    && items != [] && meta.path != []
    && (forall k :: 0 <= k < |items| ==> items[k].parentId in db.objects.rows && items[k].upnpClass != MusicAlbum)
    && (forall j, k :: 0 <= j < k < |items| ==>
          ItemIdent(db, items[j], ContentOf(meta)) != ItemIdent(db, items[k], ContentOf(meta)))
  }

  ghost predicate FilesFit(db: Db, files: seq<(seq<LibraryItem>, LibraryMetadata)>) {
    && (forall k :: 0 <= k < |files| ==> FileFits(db, files[k].0, files[k].1) && NewPath(db, files[k].1.path))
    && (forall j, k :: 0 <= j < k < |files| ==> files[j].1.path != files[k].1.path)
  }

  /** What the files of a buffer will add to the index. */
  ghost function PendingIndex(db: Db, files: seq<(seq<LibraryItem>, LibraryMetadata)>): Index {
    if files == [] then map[]
    else
      var (items, meta) := files[|files| - 1];
      PendingIndex(db, files[..|files| - 1]) + GroupIndex(db, items, ContentOf(meta))
  }

  /** Nothing with a new path is in the index. */
  lemma NewPathNotIndexed(db: Db, path: Path, i: Ident)
    requires Linked(db) && NewPath(db, path) && IsOfPath(i, path)
    ensures i !in IndexOf(db)
  {
    hide Linked, NewPath, IndexOf, IsOfPath;
    if i in IndexOf(db) {
      var id := ObjectOf(db, i);
      ObjectHasPath(db, id, path);
    }
  }

  /** The object an index entry stands for. */
  lemma ObjectOf(db: Db, i: Ident) returns (id: int)
    requires i in IndexOf(db)
    ensures id in db.objects.rows && IdentOf(db, id) == i && IndexOf(db)[i] == EntryOf(db, id) && Injective(db)
  {
    IndexTabulates(db);
    hide EntryOf, IdentOf;
    id :| id in db.objects.rows && Idents(db)[id] == i;
  }

  lemma ObjectHasPath(db: Db, id: int, path: Path)
    requires Linked(db) && id in db.objects.rows && IsOfPath(IdentOf(db, id), path)
    ensures db.HasPath(id, path) && !NewPath(db, path)
  {
    assert LinkedRow(db, id, db.objects.rows[id]);
  }

  lemma NewFileFits(db: Db, items: seq<LibraryItem>, meta: LibraryMetadata)
    requires Linked(db) && FileFits(db, items, meta) && NewPath(db, meta.path)
    ensures items != [] && GroupFits(db, items, ContentOf(meta))
  {
    hide IndexOf, Linked, NewPath;
    forall k | 0 <= k < |items|
      ensures ItemIdent(db, items[k], ContentOf(meta)) !in IndexOf(db)
    {
      NewPathNotIndexed(db, meta.path, ItemIdent(db, items[k], ContentOf(meta)));
    }
  }

  lemma FileStillFits(db: Db, db': Db, items: seq<LibraryItem>, meta: LibraryMetadata)
    requires Linked(db) && Linked(db') && Extends(db, db') && FileFits(db, items, meta)
    ensures FileFits(db', items, meta)
    ensures GroupIndex(db', items, ContentOf(meta)) == GroupIndex(db, items, ContentOf(meta))
  {
    hide Linked, ItemIdent, ItemEntry, ContentOf;
    GroupIndexStays(db, db', items, ContentOf(meta));
    forall k | 0 <= k < |items|
      ensures ItemIdent(db', items[k], ContentOf(meta)) == ItemIdent(db, items[k], ContentOf(meta))
    {
      ItemsStay(db, db', items[k], ContentOf(meta));
    }
  }

  lemma {:induction false} FilesAddEntries(db: Db, files: seq<(seq<LibraryItem>, LibraryMetadata)>)
    requires Core(db) && FilesFit(db, files)
    ensures Core(InsertAll(db, files)) && Grows(db, InsertAll(db, files), PendingIndex(db, files))
    ensures forall path :: NewPath(db, path) && (forall k :: 0 <= k < |files| ==> files[k].1.path != path) ==>
              NewPath(InsertAll(db, files), path)
  {
    hide Linked, Injective, Extends, IndexOf, PathsUnique, AllReferenced, NewPath, FileFits, InsertGroup, ContentOf,
         GroupIndex, Db.InsertMetadata;
    if files == [] {
      NothingAdded(db);
      return;
    }
    var front := files[..|files| - 1];
    var (items, meta) := files[|files| - 1];
    var before := InsertAll(db, front);
    FilesAddEntries(db, front);
    FileStillFits(db, before, items, meta);
    NewFileFits(before, items, meta);
    PathOfContent(meta);
    FileAddsEntries(before, items, ContentOf(meta));
    GrowsTransitive(db, before, InsertAll(db, files), PendingIndex(db, front), GroupIndex(db, items, ContentOf(meta)));
  }

  lemma NothingAdded(db: Db)
    requires Core(db)
    ensures Grows(db, db, map[])
  {
    hide IndexOf, Linked, Injective;
    assert IndexOf(db) + map[] == IndexOf(db);
  }

  lemma PathOfContent(meta: LibraryMetadata)
    ensures ContentOf(meta).filePath == if meta.path == [] then None else Some(meta.path)
  {
  }
}
