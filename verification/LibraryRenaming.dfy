/** Two databases with the same index are the same library up to row ids. */
module LibraryRenaming {
  import opened MusicDatabase
  import opened LibraryIndex
  import opened LibraryInvariant

  /** `to` pairs the objects of two databases one to one so that partners have the
      same name, class and content, their parents are partners, and they share
      metadata rows in the same way. */
  ghost predicate IsRenaming(a: Db, b: Db, to: map<int, int>) {
    && to.Keys == a.objects.rows.Keys
    && (forall j :: j in b.objects.rows ==> IsPartner(to, j))
    && (forall i, j :: i in to && j in to && to[i] == to[j] ==> i == j)
    && (forall i :: i in to ==> ArePartners(a, b, to, i))
    && (forall i, j :: i in to && j in to ==> ShareAlike(a, b, to, i, j))
  }

  ghost predicate IsPartner(to: map<int, int>, j: int) {
    exists i :: i in to && to[i] == j
  }

  ghost predicate ArePartners(a: Db, b: Db, to: map<int, int>, i: int)
    requires i in to
  {
    && i in a.objects.rows && to[i] in b.objects.rows
    && a.ContentAt(i).Some? && a.ContentAt(i) == b.ContentAt(to[i])
    && a.objects.rows[i].name == b.objects.rows[to[i]].name
    && a.objects.rows[i].upnpClass == b.objects.rows[to[i]].upnpClass
    && var (p, q) := (a.objects.rows[i].parentId, b.objects.rows[to[i]].parentId);
       if p in to then q == to[p] else p == q == -1
  }

  /** Files share metadata with the same objects in both databases. */
  ghost predicate ShareAlike(a: Db, b: Db, to: map<int, int>, i: int, j: int)
    requires i in to && j in to
  {
    && i in a.objects.rows && j in a.objects.rows && to[i] in b.objects.rows && to[j] in b.objects.rows
    && (a.ContentAt(i).Some? && a.ContentAt(i).value.filePath.Some? ==>
          (a.objects.rows[i].metaData == a.objects.rows[j].metaData <==>
           b.objects.rows[to[i]].metaData == b.objects.rows[to[j]].metaData))
  }

  ghost predicate Represents(b: Db, j: int, i: Ident) {
    j in b.objects.rows && IdentOf(b, j) == i
  }

  ghost function Partner(a: Db, b: Db, id: int): int
    requires exists j :: Represents(b, j, IdentOf(a, id))
  {
    var j :| Represents(b, j, IdentOf(a, id));
    j
  }

  lemma HasPartner(a: Db, b: Db, id: int)
    requires Core(a) && Core(b) && IndexOf(a) == IndexOf(b) && id in a.objects.rows
    ensures exists j :: Represents(b, j, IdentOf(a, id))
  {
    hide IdentOf, EntryOf, Linked, IndexOf, Injective, PathsUnique, AllReferenced;
    IndexHas(a, id);
    var j := ObjectOf(b, IdentOf(a, id));
    assert Represents(b, j, IdentOf(a, id));
  }

  lemma SameEntry(a: Db, b: Db, i: int, j: int)
    requires Core(a) && Core(b) && IndexOf(a) == IndexOf(b) && i in a.objects.rows && Represents(b, j, IdentOf(a, i))
    ensures EntryOf(a, i) == EntryOf(b, j)
    ensures a.ContentAt(i).Some? && a.ContentAt(i) == b.ContentAt(j)
    ensures a.objects.rows[i].name == b.objects.rows[j].name
    ensures a.objects.rows[i].upnpClass == b.objects.rows[j].upnpClass
    ensures IdentOf(a, a.objects.rows[i].parentId) == IdentOf(b, b.objects.rows[j].parentId)
  {
    hide IdentOf, IndexOf, Injective, PathsUnique, AllReferenced, Table.Valid;
    IndexHas(a, i);
    IndexHas(b, j);
    assert LinkedRow(a, i, a.objects.rows[i]) && LinkedRow(b, j, b.objects.rows[j]);
  }

  /** The root is the one object whose parent is not an object. */
  lemma RootParent(a: Db, id: int)
    requires Linked(a) && id in a.objects.rows
    ensures var p := a.objects.rows[id].parentId;
            if p in a.objects.rows then IdentOf(a, p) != Layout(-1) else p == -1 && IdentOf(a, p) == Layout(-1)
  {
    var p := a.objects.rows[id].parentId;
    assert LinkedRow(a, id, a.objects.rows[id]);
    if p in a.objects.rows {
      assert LinkedRow(a, p, a.objects.rows[p]);
    }
  }

  lemma ParentsArePartners(a: Db, b: Db, i: int, j: int)
    requires Core(a) && Core(b) && IndexOf(a) == IndexOf(b) && i in a.objects.rows && Represents(b, j, IdentOf(a, i))
    ensures var p, q := a.objects.rows[i].parentId, b.objects.rows[j].parentId;
            if p in a.objects.rows then Represents(b, q, IdentOf(a, p)) else p == q == -1
  {
    hide IdentOf, EntryOf, Linked, IndexOf, Injective, PathsUnique, AllReferenced;
    SameEntry(a, b, i, j);
    RootParent(a, i);
    RootParent(b, j);
  }

  lemma SharedByPath(a: Db, i: int, j: int)
    requires Core(a) && i in a.objects.rows && j in a.objects.rows
    requires a.ContentAt(i).Some? && a.ContentAt(j).Some? && a.ContentAt(i).value.filePath.Some?
    ensures a.objects.rows[i].metaData == a.objects.rows[j].metaData <==>
            a.ContentAt(i).value.filePath == a.ContentAt(j).value.filePath
  {
    hide Linked, Injective, AllReferenced;
  }

  /** Equal indexes come from databases that differ in row ids only. */
  lemma SameIndexSameLibrary(a: Db, b: Db) returns (to: map<int, int>)
    requires Core(a) && Core(b) && IndexOf(a) == IndexOf(b)
    ensures IsRenaming(a, b, to)
  {
    hide IdentOf, EntryOf, Linked, IndexOf, PathsUnique, AllReferenced;
    forall id | id in a.objects.rows
      ensures exists j :: Represents(b, j, IdentOf(a, id))
    {
      HasPartner(a, b, id);
    }
    to := map id | id in a.objects.rows :: Partner(a, b, id);
    forall i | i in to
      ensures ArePartners(a, b, to, i)
    {
      SameEntry(a, b, i, to[i]);
      ParentsArePartners(a, b, i, to[i]);
    }
    forall i, j | i in to && j in to
      ensures ShareAlike(a, b, to, i, j)
    {
      assert ArePartners(a, b, to, i) && ArePartners(a, b, to, j);
      if a.ContentAt(i).value.filePath.Some? {
        SharedByPath(a, i, j);
        SharedByPath(b, to[i], to[j]);
      }
    }
    PartnersCover(a, b, to);
  }

  lemma PartnersCover(a: Db, b: Db, to: map<int, int>)
    requires Core(a) && Core(b) && IndexOf(a) == IndexOf(b) && to.Keys == a.objects.rows.Keys
    requires forall id :: id in to ==> Represents(b, to[id], IdentOf(a, id))
    ensures forall j :: j in b.objects.rows ==> IsPartner(to, j)
    ensures forall i, j :: i in to && j in to && to[i] == to[j] ==> i == j
  {
    hide IdentOf, EntryOf, Linked, IndexOf, PathsUnique, AllReferenced;
    forall j | j in b.objects.rows
      ensures IsPartner(to, j)
    {
      HasPartner(b, a, j);
      var i :| Represents(a, i, IdentOf(b, j));
      assert Represents(b, to[i], IdentOf(b, j));
      assert to[i] == j;
    }
  }

  // ----- Databases that only grew -----

  /** The tables hold the same rows, in the same order. */
  ghost predicate SameTable<R(!new)>(t: Table<R>, t': Table<R>) {
    && t'.ids == t.ids
    && (forall id :: id in t'.rows <==> id in t.rows)
    && (forall id :: id in t.rows ==> t'.rows[id] == t.rows[id])
  }

  lemma NoNewObjects(db: Db, db': Db)
    requires Core(db) && Core(db') && Extends(db, db') && IndexOf(db') == IndexOf(db)
    ensures forall id :: id in db'.objects.rows ==> id in db.objects.rows
  {
    hide IdentOf, EntryOf, IndexOf, PathsUnique, AllReferenced, Linked;
    IdentsStay(db, db');
    forall id | id in db'.objects.rows
      ensures id in db.objects.rows
    {
      IndexHas(db', id);
      var id' := ObjectOf(db, IdentOf(db', id));
    }
  }

  lemma NoNewMetadata(db: Db, db': Db)
    requires Linked(db) && AllReferenced(db') && Extends(db, db')
    requires forall id :: id in db'.objects.rows ==> id in db.objects.rows
    ensures forall m :: m in db'.metadata.rows ==> m in db.metadata.rows
  {
    forall m | m in db'.metadata.rows
      ensures m in db.metadata.rows
    {
      assert IsReferenced(db', m);
      var id :| id in db'.objects.rows && db'.objects.rows[id].metaData == m;
      assert LinkedRow(db, id, db.objects.rows[id]);
    }
  }

  /** If rows were only added and the index is the same, then no row was added. */
  lemma SameIndexSameTables(db: Db, db': Db)
    requires Core(db) && Core(db') && Extends(db, db') && IndexOf(db') == IndexOf(db)
    ensures SameTable(db.objects, db'.objects) && SameTable(db.metadata, db'.metadata)
  {
    hide IndexOf, PathsUnique, AllReferenced, Injective;
    NoNewObjects(db, db');
    NoNewMetadata(db, db');
    AscendingUnique(db.objects.ids, db'.objects.ids);
    AscendingUnique(db.metadata.ids, db'.metadata.ids);
  }

  lemma {:induction false} AscendingUnique(s: seq<int>, t: seq<int>)
    requires Ascending(s) && Ascending(t) && forall x :: x in s <==> x in t
    ensures s == t
  {
    NotEmptyBoth(s, t);
    NotEmptyBoth(t, s);
    if s != [] {
      SameLast(s, t);
      var s', t' := s[..|s| - 1], t[..|t| - 1];
      FrontAscends(s);
      FrontAscends(t);
      WithoutLast(s, t);
      WithoutLast(t, s);
      hide Ascending;
      assert forall x :: x in s' <==> x in t';
      AscendingUnique(s', t');
      assert s == s' + [s[|s| - 1]] && t == t' + [t[|t| - 1]];
    }
  }

  lemma NotEmptyBoth(s: seq<int>, t: seq<int>)
    requires forall x :: x in s ==> x in t
    ensures s != [] ==> t != []
  {
    if s != [] {
      var x := s[0];
      assert x in s && x in t;
    }
  }

  lemma FrontAscends(s: seq<int>)
    requires Ascending(s) && s != []
    ensures Ascending(s[..|s| - 1])
  {
  }

  lemma SameLast(s: seq<int>, t: seq<int>)
    requires Ascending(s) && Ascending(t) && s != [] && forall x :: x in s <==> x in t
    ensures t != [] && s[|s| - 1] == t[|t| - 1]
  {
    NotEmptyBoth(s, t);
    LastIsLargest(s, t[|t| - 1]);
    LastIsLargest(t, s[|s| - 1]);
  }

  lemma LastIsLargest(s: seq<int>, x: int)
    requires Ascending(s) && x in s
    ensures x <= s[|s| - 1] && s[|s| - 1] in s
  {
  }

  lemma WithoutLast(s: seq<int>, t: seq<int>)
    requires Ascending(s) && s != [] && t != [] && s[|s| - 1] == t[|t| - 1] && forall x :: x in s ==> x in t
    ensures forall k :: 0 <= k < |s| - 1 ==> s[k] in t[..|t| - 1]
  {
    forall k | 0 <= k < |s| - 1
      ensures s[k] in t[..|t| - 1]
    {
      assert s[k] in t && s[k] != t[|t| - 1];
    }
  }
}
