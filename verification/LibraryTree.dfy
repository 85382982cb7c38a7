/** A file tree, the order in which a scan visits it, and what each visit adds to the
    index of the library. */
module LibraryTree {
  import opened Basics
  import opened MusicDatabase
  import opened LibraryIndex
  import Mime

  // ----- The tree -----

  /** What the tag reader finds in a song, with the name of its cached cover. */
  datatype Tags = Tags(
    artist: string, title: string, album: string, albumArtist: string, genre: string, thumbnail: string,
    audio: AudioProperties)

  datatype FileEntry =
    | Directory(name: string, thumbnail: string, entries: seq<FileEntry>)
    | RegularFile(name: string, modifyTime: nat, size: nat, tags: Option<Tags>)
    | OtherEntry(name: string)

  /** `entries` holds `entry` under the relative path `path`. */
  ghost predicate Holds(entries: seq<FileEntry>, path: Path, entry: FileEntry)
    decreases path
  {
    && path != []
    && exists k :: 0 <= k < |entries| && LeadsTo(entries[k], path, entry)
  }

  ghost predicate LeadsTo(start: FileEntry, path: Path, entry: FileEntry)
    requires path != []
    decreases path, 0
  {
    && start.name == path[0]
    && if |path| == 1 then entry == start else start.Directory? && Holds(start.entries, path[1..], entry)
  }

  /** No two entries of a directory have the same name. */
  ghost predicate NamesDistinct(entries: seq<FileEntry>) {
    && (forall j, k :: 0 <= j < k < |entries| ==> entries[j].name != entries[k].name)
    && (forall k :: 0 <= k < |entries| && entries[k].Directory? ==> NamesDistinct(entries[k].entries))
  }

  // ----- The traversal -----

  /** An entry of the tree, and the object it hangs under. */
  datatype Visit = Visit(path: Path, parent: Ident, entry: FileEntry)

  /** The entries of a directory and everything below them, each directory before its contents. */
  function Visits(dir: Path, parent: Ident, entries: seq<FileEntry>): seq<Visit>
    decreases entries
  {
    if entries == [] then []
    else Visits(dir, parent, entries[..|entries| - 1]) + VisitsOf(dir, parent, entries[|entries| - 1])
  }

  function VisitsOf(dir: Path, parent: Ident, entry: FileEntry): seq<Visit>
    decreases entry
  {
    [Visit(dir + [entry.name], parent, entry)] +
    (if entry.Directory? then Visits(dir + [entry.name], Node(dir + [entry.name]), entry.entries) else [])
  }

  ghost predicate PathsDistinct(vs: seq<Visit>) {
    forall j, k :: 0 <= j < k < |vs| ==> vs[j].path != vs[k].path
  }

  lemma {:induction false} VisitsPrefix(dir: Path, parent: Ident, entries: seq<FileEntry>, n: nat)
    requires n <= |entries|
    ensures Visits(dir, parent, entries[..n]) <= Visits(dir, parent, entries)
  {
    if n == |entries| {
      assert entries[..n] == entries;
    } else {
      var front := entries[..|entries| - 1];
      VisitsPrefix(dir, parent, front, n);
      assert front[..n] == entries[..n];
    }
  }

  /** Every visit is of an entry of some directory on the way. */
  lemma {:induction false} VisitComesFrom(dir: Path, parent: Ident, entries: seq<FileEntry>, v: Visit) returns (k: nat)
    requires v in Visits(dir, parent, entries)
    ensures k < |entries| && v in VisitsOf(dir, parent, entries[k])
  {
    k := |entries| - 1;
    if v !in VisitsOf(dir, parent, entries[k]) {
      k := VisitComesFrom(dir, parent, entries[..k], v);
    }
  }

  lemma {:induction false} VisitsCover(dir: Path, parent: Ident, entries: seq<FileEntry>, k: nat, v: Visit)
    requires k < |entries| && v in VisitsOf(dir, parent, entries[k])
    ensures v in Visits(dir, parent, entries)
  {
    if k < |entries| - 1 {
      VisitsCover(dir, parent, entries[..|entries| - 1], k, v);
    }
  }

  /** The object that an entry hangs under: the directory it is in. */
  ghost function ParentOf(dir: Path, parent: Ident, path: Path): Ident
    requires path != []
  {
    if |path| == 1 then parent else Node(dir + path[..|path| - 1])
  }

  /** The traversal visits exactly the entries of the tree, each under its own path
      and below the directory that holds it. */
  lemma {:induction false} VisitsAreTheTree(dir: Path, parent: Ident, entries: seq<FileEntry>, v: Visit)
    ensures v in Visits(dir, parent, entries) <==>
            exists path: Path :: Holds(entries, path, v.entry)
                && v == Visit(dir + path, ParentOf(dir, parent, path), v.entry)
  {
    if v in Visits(dir, parent, entries) {
      var path := VisitIsHeld(dir, parent, entries, v);
    }
    if path: Path :| Holds(entries, path, v.entry) && v == Visit(dir + path, ParentOf(dir, parent, path), v.entry) {
      HeldIsVisited(dir, parent, entries, path, v.entry);
    }
  }

  lemma {:induction false} VisitIsHeld(dir: Path, parent: Ident, entries: seq<FileEntry>, v: Visit) returns (path: Path)
    requires v in Visits(dir, parent, entries)
    ensures Holds(entries, path, v.entry) && v == Visit(dir + path, ParentOf(dir, parent, path), v.entry)
    decreases entries
  {
    var k := VisitComesFrom(dir, parent, entries, v);
    var start := entries[k];
    if v == Visit(dir + [start.name], parent, start) {
      path := [start.name];
      assert LeadsTo(start, path, v.entry);
    } else {
      var below := VisitIsHeld(dir + [start.name], Node(dir + [start.name]), start.entries, v);
      path := [start.name] + below;
      HeldOneDeeper(dir, parent, entries, k, below, v.entry);
    }
  }

  lemma HeldOneDeeper(dir: Path, parent: Ident, entries: seq<FileEntry>, k: nat, below: Path, entry: FileEntry)
    requires k < |entries| && entries[k].Directory? && Holds(entries[k].entries, below, entry)
    ensures var path, start := [entries[k].name] + below, dir + [entries[k].name];
            && Holds(entries, path, entry)
            && dir + path == start + below
            && ParentOf(dir, parent, path) == ParentOf(start, Node(start), below)
  {
    var path, start := [entries[k].name] + below, dir + [entries[k].name];
    assert path[1..] == below;
    assert LeadsTo(entries[k], path, entry);
    assert dir + path[..|path| - 1] == start + below[..|below| - 1];
  }

  lemma {:induction false} HeldIsVisited(dir: Path, parent: Ident, entries: seq<FileEntry>, path: Path,
                                         entry: FileEntry)
    requires Holds(entries, path, entry)
    ensures Visit(dir + path, ParentOf(dir, parent, path), entry) in Visits(dir, parent, entries)
    decreases path
  {
    var k :| 0 <= k < |entries| && LeadsTo(entries[k], path, entry);
    var start, v := entries[k], Visit(dir + path, ParentOf(dir, parent, path), entry);
    if |path| == 1 {
      assert path == [start.name];
    } else {
      HeldIsVisited(dir + [start.name], Node(dir + [start.name]), start.entries, path[1..], entry);
      assert dir + path == dir + [start.name] + path[1..];
      assert dir + path[..|path| - 1] == dir + [start.name] + path[1..][..|path| - 2];
      assert |path| == 2 ==> dir + path[..1] == dir + [start.name];
      assert v in VisitsOf(dir, parent, start);
    }
    VisitsCover(dir, parent, entries, k, v);
  }

  /** Distinct names make distinct paths. */
  lemma {:induction false} NamesMakePathsDistinct(dir: Path, parent: Ident, entries: seq<FileEntry>)
    requires NamesDistinct(entries)
    ensures PathsDistinct(Visits(dir, parent, entries))
    decreases entries
  {
    if entries == [] {
      return;
    }
    var front, last := entries[..|entries| - 1], entries[|entries| - 1];
    NamesMakePathsDistinct(dir, parent, front);
    var before, after, path := Visits(dir, parent, front), VisitsOf(dir, parent, last), dir + [last.name];
    if last.Directory? {
      NamesMakePathsDistinct(path, Node(path), last.entries);
    }
    forall k | 0 <= k < |after|
      ensures path <= after[k].path && (k > 0 ==> path != after[k].path)
    {
      if k > 0 {
        assert after[k] == Visits(path, Node(path), last.entries)[k - 1];
        var below := VisitIsHeld(path, Node(path), last.entries, after[k]);
      }
    }
    forall j | 0 <= j < |before|
      ensures !(path <= before[j].path)
    {
      var below := VisitIsHeld(dir, parent, front, before[j]);
      var k :| 0 <= k < |front| && LeadsTo(front[k], below, before[j].entry);
      assert (dir + below)[|dir|] == front[k].name;
    }
    ConcatDistinct(before, after);
  }

  lemma ConcatDistinct(before: seq<Visit>, after: seq<Visit>)
    requires PathsDistinct(before) && PathsDistinct(after)
    requires forall j, k :: 0 <= j < |before| && 0 <= k < |after| ==> before[j].path != after[k].path
    ensures PathsDistinct(before + after)
  {
  }

  // ----- What a visit adds -----

  const NO_AUDIO := AudioProperties(0, 0, 0, 0)

  /** The class of the objects of a file; None if files of its kind are not indexed. */
  function ClassOfFile(name: string): Option<UpnpClass> {
    match Mime.GroupFromFile(name)
    case AudioGroup => Some(AudioItem)
    case VideoGroup => Some(VideoItem)
    case ImageGroup => Some(ImageItem)
    case OtherGroup => None
  }

  function MimeTypeOfFile(name: string): string {
    var printed := Mime.ToString(Mime.TypeFromFile(name));
    if printed.Some? then printed.value else ""
  }

  function DirectoryMetadata(v: Visit): LibraryMetadata
    requires v.entry.Directory?
  {
    LibraryMetadata("", v.entry.name, "", "", "", v.path, "", v.entry.thumbnail, NO_AUDIO, 0, 0)
  }

  /** Tags are read from songs only, and only if they can be read. */
  function TagsOf(v: Visit): Option<Tags>
    requires v.entry.RegularFile?
  {
    if ClassOfFile(v.entry.name) == Some(AudioItem) then v.entry.tags else None
  }

  /** The metadata of a file, with what its tags say if they were read. */
  function MetadataOfFile(path: Path, file: FileEntry, tags: Option<Tags>): LibraryMetadata
    requires file.RegularFile?
  {
    var mimeType := MimeTypeOfFile(file.name);
    match tags
    case None => LibraryMetadata("", "", "", "", "", path, mimeType, "", NO_AUDIO, file.size, file.modifyTime)
    case Some(t) => LibraryMetadata(t.artist, t.title, t.album, t.albumArtist, t.genre, path, mimeType, t.thumbnail,
                                    t.audio, file.size, file.modifyTime)
  }

  function FileMetadata(v: Visit): LibraryMetadata
    requires v.entry.RegularFile?
  {
    MetadataOfFile(v.path, v.entry, TagsOf(v))
  }

  predicate HasAlbum(v: Visit) {
    v.entry.RegularFile? && TagsOf(v).Some? && TagsOf(v).value.album != ""
  }

  /** Directories and files of a playable kind get an object. */
  predicate GetsObject(entry: FileEntry) {
    entry.Directory? || (entry.RegularFile? && ClassOfFile(entry.name).Some?)
  }

  predicate IsIndexed(v: Visit) {
    v.entry.RegularFile? && GetsObject(v.entry)
  }

  /** An album has the metadata of the song that brings it in. */
  function AlbumMetadata(t: Tags): LibraryMetadata {
    LibraryMetadata(t.albumArtist, t.album, "", "", t.genre, [], "", t.thumbnail, NO_AUDIO, 0, 0)
  }

  function AlbumOf(v: Visit): Ident
    requires HasAlbum(v)
  {
    Album(TagsOf(v).value.album, Tvin(TagsOf(v).value.albumArtist))
  }

  function AlbumEntry(v: Visit): Entry
    requires HasAlbum(v)
  {
    Entry(Layout(2), TagsOf(v).value.album, MusicAlbum, ContentOf(AlbumMetadata(TagsOf(v).value)))
  }

  function DirectoryEntry(v: Visit): Entry
    requires v.entry.Directory?
  {
    Entry(v.parent, v.entry.name, Container, ContentOf(DirectoryMetadata(v)))
  }

  function FileEntryOf(v: Visit): Entry
    requires IsIndexed(v)
  {
    Entry(v.parent, v.entry.name, ClassOfFile(v.entry.name).value, ContentOf(FileMetadata(v)))
  }

  function SongEntry(v: Visit): Entry
    requires HasAlbum(v)
  {
    Entry(AlbumOf(v), v.entry.name, AudioItem, ContentOf(FileMetadata(v)))
  }

  /** The objects of a file: itself, and a song also under its album. */
  function FileIndex(v: Visit): Index
    requires IsIndexed(v)
  {
    (if HasAlbum(v) then map[AlbumTrack(v.path) := SongEntry(v)] else map[]) + map[Node(v.path) := FileEntryOf(v)]
  }

  function WithAlbum(idx: Index, v: Visit): Index {
    if HasAlbum(v) && AlbumOf(v) !in idx then idx + map[AlbumOf(v) := AlbumEntry(v)] else idx
  }

  /** The index after a visit; what is there already stays as it is. */
  function Visited(idx: Index, v: Visit): Index {
    if Node(v.path) in idx then idx
    else if v.entry.Directory? then idx + map[Node(v.path) := DirectoryEntry(v)]
    else if IsIndexed(v) then FileIndex(v) + WithAlbum(idx, v)
    else idx
  }

  /** The index after a sequence of visits. */
  function Fold(idx: Index, vs: seq<Visit>): Index {
    if vs == [] then idx else Visited(Fold(idx, vs[..|vs| - 1]), vs[|vs| - 1])
  }

  lemma {:induction false} FoldConcat(idx: Index, before: seq<Visit>, after: seq<Visit>)
    ensures Fold(idx, before + after) == Fold(Fold(idx, before), after)
  {
    hide Visited;
    if after == [] {
      assert before + after == before;
    } else {
      var n := |after| - 1;
      FoldConcat(idx, before, after[..n]);
      assert (before + after)[..|before| + n] == before + after[..n];
    }
  }

  // ----- Scanning again -----

  /** Visiting this entry adds nothing any more. */
  predicate IsSettled(idx: Index, v: Visit) {
    Node(v.path) in idx || !GetsObject(v.entry)
  }

  predicate Includes(large: Index, small: Index) {
    small.Keys <= large.Keys && forall i :: i in small ==> large[i] == small[i]
  }

  lemma VisitSettles(idx: Index, v: Visit)
    ensures IsSettled(Visited(idx, v), v) && Includes(Visited(idx, v), idx)
  {
    hide FileEntryOf, SongEntry, AlbumEntry, DirectoryEntry, AlbumOf, HasAlbum, ClassOfFile;
    if IsIndexed(v) && Node(v.path) !in idx && !v.entry.Directory? {
      FileIndexKeys(v);
    }
  }

  lemma FileIndexKeys(v: Visit)
    requires IsIndexed(v)
    ensures Node(v.path) in FileIndex(v) && forall i :: i in FileIndex(v) ==> IsOfPath(i, v.path)
  {
  }

  lemma {:induction false} FoldSettles(idx: Index, vs: seq<Visit>)
    ensures Includes(Fold(idx, vs), idx)
    ensures forall v :: v in vs ==> IsSettled(Fold(idx, vs), v)
  {
    hide Visited, IsIndexed;
    if vs != [] {
      var n := |vs| - 1;
      FoldSettles(idx, vs[..n]);
      VisitSettles(Fold(idx, vs[..n]), vs[n]);
      assert vs == vs[..n] + [vs[n]];
    }
  }

  lemma {:induction false} SettledFoldsToItself(idx: Index, vs: seq<Visit>)
    requires forall v :: v in vs ==> IsSettled(idx, v)
    ensures Fold(idx, vs) == idx
  {
    hide ClassOfFile, WithAlbum, FileIndex;
    if vs != [] {
      var n := |vs| - 1;
      SettledFoldsToItself(idx, vs[..n]);
      assert IsSettled(idx, vs[n]);
    }
  }

  /** A traversal that was cut short and then repeated in full gives the same index as
      one full traversal; so does repeating a full one. */
  lemma ResumedScan(idx: Index, vs: seq<Visit>, n: nat)
    requires n <= |vs|
    ensures Fold(Fold(idx, vs[..n]), vs) == Fold(idx, vs)
  {
    hide Fold, IsSettled, Includes;
    var first := Fold(idx, vs[..n]);
    FoldSettles(idx, vs[..n]);
    SettledFoldsToItself(first, vs[..n]);
    assert vs == vs[..n] + vs[n..];
    FoldConcat(first, vs[..n], vs[n..]);
    FoldConcat(idx, vs[..n], vs[n..]);
  }

  // ----- What a full scan leaves -----

  const PACKAGE_NAME := "Doozy"

  const ROOT_ID := 0
  const MUSIC_ID := 1
  const ALBUMS_ID := 2
  const BROWSE_FILE_SYSTEM_ID := 3

  function LayoutMetadata(name: string): LibraryMetadata {
    LibraryMetadata("", name, "", "", "", [], "", "", NO_AUDIO, 0, 0)
  }

  function LayoutEntry(parentId: int, name: string, upnpClass: UpnpClass): Entry {
    Entry(Layout(parentId), name, upnpClass, ContentOf(LayoutMetadata(name)))
  }

  /** The fixed containers every library has. */
  const LAYOUT: Index :=
    map[Layout(0) := LayoutEntry(-1, PACKAGE_NAME, Container),
        Layout(1) := LayoutEntry(0, "Music", Container),
        Layout(2) := LayoutEntry(1, "Albums", Container),
        Layout(3) := LayoutEntry(0, "Browse filesystem", StorageFolder)]

  /** A visited entry calls for this object. */
  predicate CallsFor(v: Visit, i: Ident) {
    match i
    case Layout(_) => false
    case Node(path) => path == v.path && GetsObject(v.entry)
    case AlbumTrack(path) => path == v.path && HasAlbum(v)
    case Album(_, _) => HasAlbum(v) && i == AlbumOf(v)
  }

  function CalledFor(v: Visit, i: Ident): Entry
    requires CallsFor(v, i)
  {
    match i
    case Node(_) => if v.entry.Directory? then DirectoryEntry(v) else FileEntryOf(v)
    case AlbumTrack(_) => SongEntry(v)
    case Album(_, _) => AlbumEntry(v)
  }

  /** No entry before the k-th calls for `i`. */
  ghost predicate IsFirstCall(vs: seq<Visit>, k: nat, i: Ident) {
    k < |vs| && CallsFor(vs[k], i) && forall j :: 0 <= j < k ==> !CallsFor(vs[j], i)
  }

  /** The index holds the layout and what the entries call for, and nothing else;
      where several call for the same object, it is described by the first of them. */
  ghost predicate Describes(idx: Index, vs: seq<Visit>) {
    && Includes(idx, LAYOUT)
    && (forall i :: i in idx ==> i in LAYOUT || exists k: nat :: IsFirstCall(vs, k, i))
    && (forall k: nat, i :: IsFirstCall(vs, k, i) ==> i in idx && idx[i] == CalledFor(vs[k], i))
  }

  lemma VisitedExactly(idx: Index, v: Visit, i: Ident)
    requires Node(v.path) !in idx
    ensures i in Visited(idx, v) <==> i in idx || CallsFor(v, i)
    ensures i in Visited(idx, v) ==> Visited(idx, v)[i] == if i in idx then idx[i] else CalledFor(v, i)
  {
    hide FileEntryOf, SongEntry, AlbumEntry, DirectoryEntry;
  }

  lemma FirstCallSnoc(vs: seq<Visit>, k: nat, i: Ident)
    requires vs != []
    ensures var n := |vs| - 1;
            IsFirstCall(vs, k, i) <==>
            IsFirstCall(vs[..n], k, i)
            || (k == n && CallsFor(vs[n], i) && forall j :: 0 <= j < n ==> !CallsFor(vs[..n][j], i))
  {
    hide CallsFor;
  }

  lemma SomeFirstCall(vs: seq<Visit>, n: nat, i: Ident) returns (k: nat)
    requires n < |vs| && CallsFor(vs[n], i)
    ensures k <= n && IsFirstCall(vs, k, i)
  {
    hide CallsFor;
    k := n;
    if j :| 0 <= j < n && CallsFor(vs[j], i) {
      k := SomeFirstCall(vs, j, i);
    }
  }

  /** A full scan of an empty library indexes exactly the tree. */
  lemma {:induction false} FullScanDescribesTree(vs: seq<Visit>)
    requires PathsDistinct(vs)
    ensures Describes(Fold(LAYOUT, vs), vs)
  {
    hide CallsFor, CalledFor, Visited;
    if vs == [] {
      return;
    }
    var n := |vs| - 1;
    FullScanDescribesTree(vs[..n]);
    var before := Fold(LAYOUT, vs[..n]);
    NotYetIndexed(before, vs);
    DescribesOneMore(before, vs);
  }

  lemma NotYetIndexed(idx: Index, vs: seq<Visit>)
    requires vs != [] && PathsDistinct(vs) && Describes(idx, vs[..|vs| - 1])
    ensures Node(vs[|vs| - 1].path) !in idx
  {
    hide HasAlbum, IsIndexed;
  }

  lemma DescribesOneMore(idx: Index, vs: seq<Visit>)
    requires vs != [] && Describes(idx, vs[..|vs| - 1]) && Node(vs[|vs| - 1].path) !in idx
    ensures Describes(Visited(idx, vs[|vs| - 1]), vs)
  {
    hide CallsFor, CalledFor, Visited, IsSettled;
    var n := |vs| - 1;
    var idx', last := Visited(idx, vs[n]), vs[n];
    VisitSettles(idx, last);
    forall i | i in idx'
      ensures i in LAYOUT || exists k: nat :: IsFirstCall(vs, k, i)
    {
      VisitedExactly(idx, last, i);
      if CallsFor(last, i) {
        var k := SomeFirstCall(vs, n, i);
      } else if k: nat :| IsFirstCall(vs[..n], k, i) {
        FirstCallSnoc(vs, k, i);
      }
    }
    forall k: nat, i | IsFirstCall(vs, k, i)
      ensures i in idx' && idx'[i] == CalledFor(vs[k], i)
    {
      FirstCallSnoc(vs, k, i);
      VisitedExactly(idx, last, i);
      CalledForOneMore(idx, vs, k, i);
    }
  }

  lemma CalledForOneMore(idx: Index, vs: seq<Visit>, k: nat, i: Ident)
    requires vs != [] && Describes(idx, vs[..|vs| - 1]) && IsFirstCall(vs, k, i)
    ensures CallsFor(vs[k], i)
    ensures i in idx ==> idx[i] == CalledFor(vs[k], i)
    ensures i !in idx ==> k == |vs| - 1
  {
    hide CalledFor;
    FirstCallSnoc(vs, k, i);
    assert i !in LAYOUT by { assert !i.Layout?; }
  }

  // ----- Entries that wait in a buffer -----

  /** What buffered files will add. */
  function Pending(vs: seq<Visit>): Index
    requires forall k :: 0 <= k < |vs| ==> IsIndexed(vs[k])
  {
    if vs == [] then map[] else Pending(vs[..|vs| - 1]) + FileIndex(vs[|vs| - 1])
  }

  lemma {:induction false} PendingKeys(vs: seq<Visit>)
    requires forall k :: 0 <= k < |vs| ==> IsIndexed(vs[k])
    ensures forall i :: i in Pending(vs) ==> exists k :: 0 <= k < |vs| && IsOfPath(i, vs[k].path)
  {
    hide IsIndexed, FileIndex, IsOfPath;
    if vs != [] {
      var n := |vs| - 1;
      PendingKeys(vs[..n]);
      FileIndexKeys(vs[n]);
      forall i | i in Pending(vs)
        ensures exists k :: 0 <= k < |vs| && IsOfPath(i, vs[k].path)
      {
        if i in FileIndex(vs[n]) {
          assert IsOfPath(i, vs[n].path);
        } else {
          assert i in Pending(vs[..n]);
          var k :| 0 <= k < |vs[..n]| && IsOfPath(i, vs[..n][k].path);
          assert IsOfPath(i, vs[k].path);
        }
      }
    }
  }

  /** `waiting` has no entries that these visits look for. */
  ghost predicate IsApart(waiting: Index, vs: seq<Visit>) {
    forall i :: i in waiting ==> !i.Album? && forall k :: 0 <= k < |vs| ==> !IsOfPath(i, vs[k].path)
  }

  /** Visits neither see nor disturb entries that are apart from them. */
  lemma VisitedBeside(idx: Index, waiting: Index, v: Visit)
    requires IsApart(waiting, [v]) && idx.Keys !! waiting.Keys
    ensures Visited(idx + waiting, v) == Visited(idx, v) + waiting && Visited(idx, v).Keys !! waiting.Keys
  {
    hide FileEntryOf, SongEntry, AlbumEntry, DirectoryEntry, HasAlbum, IsIndexed;
    assert [v][0] == v;
    assert !IsOfPath(Node(v.path), v.path) || Node(v.path) !in waiting;
    if Node(v.path) in idx || v.entry.Directory? || !IsIndexed(v) {
      assert Visited(idx + waiting, v) == Visited(idx, v) + waiting;
    } else {
      FileIndexKeys(v);
      WithAlbumBeside(idx, waiting, v);
      BesideBoth(FileIndex(v), WithAlbum(idx, v), waiting);
    }
  }

  lemma WithAlbumBeside(idx: Index, waiting: Index, v: Visit)
    requires (forall i :: i in waiting ==> !i.Album?) && idx.Keys !! waiting.Keys
    ensures WithAlbum(idx + waiting, v) == WithAlbum(idx, v) + waiting && WithAlbum(idx, v).Keys !! waiting.Keys
  {
    hide AlbumEntry, HasAlbum;
    if HasAlbum(v) {
      assert AlbumOf(v).Album?;
    }
  }

  lemma BesideBoth(file: Index, idx: Index, waiting: Index)
    requires file.Keys !! waiting.Keys && idx.Keys !! waiting.Keys
    ensures file + (idx + waiting) == (file + idx) + waiting && (file + idx).Keys !! waiting.Keys
  {
  }

  lemma {:induction false} FoldBeside(idx: Index, waiting: Index, vs: seq<Visit>)
    requires IsApart(waiting, vs) && idx.Keys !! waiting.Keys
    ensures Fold(idx + waiting, vs) == Fold(idx, vs) + waiting && Fold(idx, vs).Keys !! waiting.Keys
  {
    hide Visited, IsOfPath;
    if vs != [] {
      var n := |vs| - 1;
      assert IsApart(waiting, vs[..n]) && IsApart(waiting, [vs[n]]);
      FoldBeside(idx, waiting, vs[..n]);
      VisitedBeside(Fold(idx, vs[..n]), waiting, vs[n]);
    }
  }

  // ----- Trees that an index can be brought up to date with -----

  /** The entry was a directory before if it is one now, and a file has not been
      modified since it was indexed. */
  predicate Agrees(e: Entry, v: Visit) {
    && (v.entry.Directory? ==> e.upnpClass == Container)
    && (IsIndexed(v) ==> e.content.modifiedTime >= v.entry.modifyTime)
  }

  ghost predicate IsUnmodified(idx: Index, vs: seq<Visit>) {
    forall k :: 0 <= k < |vs| && Node(vs[k].path) in idx ==> Agrees(idx[Node(vs[k].path)], vs[k])
  }

  lemma VisitedElsewhere(idx: Index, v: Visit, path: Path)
    requires path != v.path
    ensures Node(path) in Visited(idx, v) <==> Node(path) in idx
    ensures Node(path) in idx ==> Visited(idx, v)[Node(path)] == idx[Node(path)]
  {
    hide FileEntryOf, SongEntry, AlbumEntry, DirectoryEntry, HasAlbum, IsIndexed;
  }

  lemma {:induction false} FoldElsewhere(idx: Index, vs: seq<Visit>, path: Path)
    requires forall k :: 0 <= k < |vs| ==> vs[k].path != path
    ensures Node(path) in Fold(idx, vs) <==> Node(path) in idx
    ensures Node(path) in idx ==> Fold(idx, vs)[Node(path)] == idx[Node(path)]
  {
    hide Visited;
    if vs != [] {
      var n := |vs| - 1;
      FoldElsewhere(idx, vs[..n], path);
      VisitedElsewhere(Fold(idx, vs[..n]), vs[n], path);
    }
  }

  lemma VisitedAgrees(idx: Index, v: Visit)
    requires Node(v.path) in idx ==> Agrees(idx[Node(v.path)], v)
    ensures Node(v.path) in Visited(idx, v) ==> Agrees(Visited(idx, v)[Node(v.path)], v)
  {
    if Node(v.path) !in idx && IsIndexed(v) {
      assert ContentOf(FileMetadata(v)).modifiedTime == v.entry.modifyTime;
    }
  }

  /** An index stays in agreement with a tree while it is scanned. */
  lemma {:induction false} ScanStaysUnmodified(idx: Index, vs: seq<Visit>, n: nat)
    requires n <= |vs| && PathsDistinct(vs) && IsUnmodified(idx, vs)
    ensures IsUnmodified(Fold(idx, vs[..n]), vs)
  {
    hide Visited, Agrees;
    if n > 0 {
      ScanStaysUnmodified(idx, vs, n - 1);
      var before, v := Fold(idx, vs[..n - 1]), vs[n - 1];
      assert vs[..n][..n - 1] == vs[..n - 1];
      VisitedAgrees(before, v);
      forall k | 0 <= k < |vs| && k != n - 1
        ensures Node(vs[k].path) in Fold(idx, vs[..n]) <==> Node(vs[k].path) in before
        ensures Node(vs[k].path) in before ==> Fold(idx, vs[..n])[Node(vs[k].path)] == before[Node(vs[k].path)]
      {
        VisitedElsewhere(before, v, vs[k].path);
      }
    }
  }
}
