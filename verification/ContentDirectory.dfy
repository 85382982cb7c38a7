/** What the media server offers: pages of the library (ContentDirectory:1, section
    2.7.4), and the file behind a resource. */
module ContentDirectory {
  import opened Basics
  import opened MusicDatabase
  import opened LibraryIndex
  import opened LibraryTree
  import opened LibraryInvariant
  import opened LibrarySoundness
  import opened InterruptedPrune
  import opened ScanProgress
  import opened ScanSteps
  import opened Scanning
  import opened MusicLibraries
  import Mime

  // ----- Numbers as text -----

  predicate IsDigit(c: char) {
    '0' <= c <= '9'
  }

  function DigitOf(n: nat): char
    requires n < 10
  {
    ('0' as int + n) as char
  }

  function PrintNat(n: nat): string {
    if n < 10 then [DigitOf(n)] else PrintNat(n / 10) + [DigitOf(n % 10)]
  }

  function PrintInt(n: int): string {
    if n < 0 then "-" + PrintNat(-n) else PrintNat(n)
  }

  /** The value of a run of digits. */
  function ValueOf(digits: string): nat
    requires forall c :: c in digits ==> IsDigit(c)
  {
    if digits == "" then 0
    else
      var last := digits[|digits| - 1];
      assert last in digits && IsDigit(last);
      10 * ValueOf(digits[..|digits| - 1]) + (last as int - '0' as int)
  }

  /** The digits that a text starts with. */
  function LeadingDigits(s: string): (r: string)
    ensures forall c :: c in r ==> IsDigit(c)
  {
    if s == "" || !IsDigit(s[0]) then "" else [s[0]] + LeadingDigits(s[1..])
  }

  function SkipSpace(s: string): string {
    if s != "" && s[0] in {' ', '\t', '\n', '\r', 11 as char, 12 as char} then SkipSpace(s[1..]) else s
  }

  /** The 64-bit number that a text starts with; None where the library function throws. */
  function ParseInt(text: string): (number: Option<int>)
    ensures number.Some? ==> -0x8000_0000_0000_0000 <= number.value < 0x8000_0000_0000_0000
  {
    var s := SkipSpace(text);
    var negative := s != "" && s[0] == '-';
    var digits := LeadingDigits(if s != "" && s[0] in {'-', '+'} then s[1..] else s);
    var size: int := ValueOf(digits);
    var value := if negative then -size else size;
    if digits == "" || !(-0x8000_0000_0000_0000 <= value < 0x8000_0000_0000_0000) then None else Some(value)
  }

  lemma {:induction false} PrintedDigits(n: nat)
    ensures PrintNat(n) != "" && forall c :: c in PrintNat(n) ==> IsDigit(c)
    ensures ValueOf(PrintNat(n)) == n
  {
    if n < 10 {
      assert PrintNat(n)[..0] == "";
    } else {
      PrintedDigits(n / 10);
      assert PrintNat(n)[..|PrintNat(n)| - 1] == PrintNat(n / 10);
    }
  }

  lemma {:induction false} AllLeading(s: string)
    requires forall c :: c in s ==> IsDigit(c)
    ensures LeadingDigits(s) == s
  {
    if s != "" {
      assert s[0] in s;
      AllLeading(s[1..]);
    }
  }

  lemma NoSpace(s: string)
    requires s != "" && (IsDigit(s[0]) || s[0] == '-')
    ensures SkipSpace(s) == s && s[0] != '+'
    ensures IsDigit(s[0]) ==> s[0] != '-'
  {
  }

  lemma PrintedFirst(n: nat)
    ensures var digits := PrintNat(n);
            digits != "" && IsDigit(digits[0]) && LeadingDigits(digits) == digits && ValueOf(digits) == n
  {
    var digits := PrintNat(n);
    PrintedDigits(n);
    AllLeading(digits);
    hide PrintNat, ValueOf, LeadingDigits;
    assert digits[0] in digits;
  }

  /** Printing and parsing a number gives it back, within 64 bits. */
  lemma PrintParse(n: int)
    requires -0x8000_0000_0000_0000 <= n < 0x8000_0000_0000_0000
    ensures ParseInt(PrintInt(n)) == Some(n)
  {
    hide PrintNat, ValueOf, LeadingDigits, SkipSpace, IsDigit;
    var size: nat := if n < 0 then -n else n;
    var digits, text := PrintNat(size), PrintInt(n);
    PrintedFirst(size);
    NoSpace(text);
    if n < 0 {
      assert text[1..] == digits;
    }
  }

  predicate IsSpace(c: char) {
    c in {' ', '\t', '\n', '\r', 11 as char, 12 as char}
  }

  lemma {:induction false} SpaceSkipped(space: string, text: string)
    requires forall c :: c in space ==> IsSpace(c)
    requires text != "" ==> !IsSpace(text[0])
    ensures SkipSpace(space + text) == text
  {
    if space == "" {
      assert space + text == text;
    } else {
      assert space[0] in space && (space + text)[1..] == space[1..] + text;
      SpaceSkipped(space[1..], text);
    }
  }

  lemma {:induction false} DigitsThenRest(digits: string, rest: string)
    requires (forall c :: c in digits ==> IsDigit(c)) && (rest != "" ==> !IsDigit(rest[0]))
    ensures LeadingDigits(digits + rest) == digits
  {
    if digits == "" {
      assert digits + rest == rest;
    } else {
      assert digits[0] in digits && (digits + rest)[1..] == digits[1..] + rest;
      DigitsThenRest(digits[1..], rest);
    }
  }

  /** A number may have white space and a sign before it and anything that is no digit after
      it; without digits, or out of 64 bits, there is no number. */
  lemma ParsesNumber(space: string, sign: string, digits: string, rest: string)
    requires (forall c :: c in space ==> IsSpace(c)) && sign in {"", "-", "+"}
    requires (forall c :: c in digits ==> IsDigit(c)) && (rest != "" ==> !IsDigit(rest[0]))
    requires sign + digits == "" ==> rest == "" || (!IsSpace(rest[0]) && rest[0] !in {'-', '+'})
    ensures var size: int := ValueOf(digits);
            var value := if sign == "-" then -size else size;
            ParseInt(space + (sign + (digits + rest))) ==
            if digits == "" || !(-0x8000_0000_0000_0000 <= value < 0x8000_0000_0000_0000) then None else Some(value)
  {
    var number := sign + (digits + rest);
    FirstOfNumber(sign, digits, rest);
    SpaceSkipped(space, number);
    DigitsThenRest(digits, rest);
    hide SkipSpace, LeadingDigits, ValueOf, IsDigit, IsSpace;
    if sign == "" {
      assert number == digits + rest;
    } else {
      assert number[0] == sign[0] && number[1..] == digits + rest;
    }
  }

  lemma FirstOfNumber(sign: string, digits: string, rest: string)
    requires sign in {"", "-", "+"} && forall c :: c in digits ==> IsDigit(c)
    requires sign + digits == "" ==> rest == "" || (!IsSpace(rest[0]) && rest[0] !in {'-', '+'})
    ensures var number := sign + (digits + rest);
            && (number != "" ==> !IsSpace(number[0]))
            && (sign == "" && number != "" ==> number[0] != '-' && number[0] != '+')
  {
    if sign == "" && digits != "" {
      assert digits[0] in digits;
    }
  }

  // ----- File names -----

  /** The text after the last `c`, all of it if there is none. */
  function AfterLast(s: string, c: char): string {
    if s == "" || s[|s| - 1] == c then ""
    else AfterLast(s[..|s| - 1], c) + [s[|s| - 1]]
  }

  /** The text before the last `c`, all of it if there is none. */
  function BeforeLast(s: string, c: char): string {
    if c !in s then s
    else if s[|s| - 1] == c then s[..|s| - 1]
    else BeforeLast(s[..|s| - 1], c)
  }

  function FileNameWithoutExtension(url: string): string {
    BeforeLast(AfterLast(url, '/'), '.')
  }

  lemma {:induction false} AfterLastOf(before: string, c: char, rest: string)
    requires c !in rest
    ensures AfterLast(before + [c] + rest, c) == rest
  {
    var s := before + [c] + rest;
    if rest != "" {
      AfterLastOf(before, c, rest[..|rest| - 1]);
      assert s[..|s| - 1] == before + [c] + rest[..|rest| - 1];
      assert s[|s| - 1] in rest;
    }
  }

  lemma {:induction false} BeforeLastOf(before: string, c: char, rest: string)
    requires c !in rest
    ensures BeforeLast(before + [c] + rest, c) == before
  {
    var s := before + [c] + rest;
    assert s[|before|] == c;
    if rest == "" {
      assert s[..|s| - 1] == before;
    } else {
      BeforeLastOf(before, c, rest[..|rest| - 1]);
      assert s[..|s| - 1] == before + [c] + rest[..|rest| - 1];
      assert s[|s| - 1] in rest;
    }
  }

  // ----- Items -----

  datatype Resource = Resource(protocolInfo: string, url: string, size: nat, audio: AudioProperties)

  datatype UpnpItem = UpnpItem(
    objectId: string, parentId: string, refId: Option<string>, title: string, artist: string, genre: string,
    albumArt: Option<string>, upnpClass: UpnpClass, resource: Option<Resource>, childCount: Option<uint32>)

  function TextOf(s: Option<string>): string {
    if s.Some? then s.value else ""
  }

  function CombinePath(left: string, right: string): string {
    if left == "" || left[|left| - 1] == '/' then left + right else left + "/" + right
  }

  /** The properties as a resource holds them, in 32 bits each. */
  function Audio32(audio: AudioProperties): AudioProperties {
    AudioProperties(audio.duration % 0x1_0000_0000, audio.nrChannels % 0x1_0000_0000, audio.bitrate % 0x1_0000_0000,
                    audio.sampleRate % 0x1_0000_0000)
  }

  function UrlOf(webRoot: string, id: int, extension: string): string {
    webRoot + "Media/" + PrintInt(id) + "." + extension
  }

  /** An object joined with its metadata, as an item; None where the source throws,
      for an object that does not exist or a file of unknown type. */
  function ParseItem(db: Db, webRoot: string, id: int): Option<UpnpItem> {
    if id !in db.objects.rows then None
    else
      var row, content := db.objects.rows[id], db.ContentAt(id);
      var title, artist, genre, thumbnail :=
        if content.Some? then content.value.title else None, if content.Some? then content.value.artist else None,
        if content.Some? then content.value.genre else None, if content.Some? then content.value.thumbnail else None;
      var item := UpnpItem(
        PrintInt(id), PrintInt(row.parentId),
        if row.refId.Some? then Some(PrintInt(row.refId.value)) else None,
        if title.Some? then title.value else row.name, TextOf(artist), TextOf(genre),
        if thumbnail.Some? then Some(CombinePath(webRoot, thumbnail.value)) else None,
        row.upnpClass, None, None);
      if row.upnpClass.IsContainer() then Some(item)
      else
        var mimeType := if content.Some? then TextOf(content.value.mimeType) else "";
        var extension := Mime.ExtensionFromType(Mime.TypeFromString(mimeType));
        if extension.None? then None
        else
          var resource := Resource(
            "http-get:*:" + mimeType + ":*", UrlOf(webRoot, id, extension.value),
            if content.Some? then content.value.fileSize else 0,
            if content.Some? then Audio32(content.value.audio) else NO_AUDIO);
          Some(item.(resource := Some(resource)))
  }

  /** The items of these objects; None if one of them throws. */
  function ParseItems(db: Db, webRoot: string, ids: seq<int>): Option<seq<UpnpItem>> {
    if ids == [] then Some([])
    else
      var front, last := ParseItems(db, webRoot, ids[..|ids| - 1]), ParseItem(db, webRoot, ids[|ids| - 1]);
      if front.Some? && last.Some? then Some(front.value + [last.value]) else None
  }

  function Count32(n: nat): uint32 {
    n % 0x1_0000_0000
  }

  /** A container tells how many children it has. */
  function WithChildCount(db: Db, item: UpnpItem, id: int): UpnpItem {
    if item.upnpClass.IsContainer() then item.(childCount := Some(Count32(|db.Children(id)|))) else item
  }

  function WithChildCounts(db: Db, items: seq<UpnpItem>, ids: seq<int>): seq<UpnpItem>
    requires |items| == |ids|
  {
    seq(|items|, k requires 0 <= k < |items| => WithChildCount(db, items[k], ids[k]))
  }

  /** Ids that fit the database column. */
  ghost predicate IdsFit(db: Db) {
    forall id :: id in db.objects.ids ==> 0 <= id < 0x8000_0000_0000_0000
  }

  lemma {:induction false} ItemsKeepIds(db: Db, webRoot: string, ids: seq<int>)
    requires ParseItems(db, webRoot, ids).Some?
    ensures var items := ParseItems(db, webRoot, ids).value;
            |items| == |ids| && forall k :: 0 <= k < |ids| ==> ParseItem(db, webRoot, ids[k]) == Some(items[k])
  {
    hide ParseItem;
    if ids != [] {
      ItemsKeepIds(db, webRoot, ids[..|ids| - 1]);
    }
  }

  lemma ItemHasId(db: Db, webRoot: string, id: int)
    requires ParseItem(db, webRoot, id).Some? && -0x8000_0000_0000_0000 <= id < 0x8000_0000_0000_0000
    ensures ParseInt(ParseItem(db, webRoot, id).value.objectId) == Some(id)
  {
    PrintParse(id);
    hide ParseInt, PrintInt;
  }

  // ----- The service -----

  datatype BrowseFlag = Metadata | DirectChildren

  datatype ActionResult = ActionResult(items: seq<UpnpItem>, updateId: nat, totalMatches: uint32,
      numberReturned: uint32)

  class MediaServer {
    const db: MusicDb
    const webRoot: string

    constructor (db: MusicDb, webRoot: string)
      ensures this.db == db && this.webRoot == webRoot
    {
      this.db, this.webRoot := db, webRoot;
    }

    method GetItems(parentId: int, offset: uint32, count: uint32) returns (items: Option<seq<UpnpItem>>)
      ensures items == ParseItems(db.View(), webRoot, Page(db.View().Children(parentId), offset, LimitOf(count)))
    {
      hide ParseItem, ParseItems, Page, Db.Children;
      var ids := db.GetItems(parentId, offset, count);
      NothingParsed(db.View(), webRoot);
      var parsed: seq<UpnpItem> := [];
      for k := 0 to |ids|
        invariant ParseItems(db.View(), webRoot, ids[..k]) == Some(parsed)
      {
        var item := ParseItem(db.View(), webRoot, ids[k]);
        if item.None? {
          FailsAtOnce(db.View(), webRoot, ids, k);
          return None;
        }
        ParsedNext(db.View(), webRoot, ids, k);
        parsed := parsed + [item.value];
      }
      assert ids[..|ids|] == ids;
      return Some(parsed);
    }

    /** Sets the number of children of every container among the items. */
    method SetChildCounts(found: seq<UpnpItem>, ghost ids: seq<int>) returns (items: seq<UpnpItem>)
      requires ParseItems(db.View(), webRoot, ids) == Some(found) && |found| == |ids|
      requires forall k :: 0 <= k < |ids| ==> -0x8000_0000_0000_0000 <= ids[k] < 0x8000_0000_0000_0000
      ensures items == WithChildCounts(db.View(), found, ids)
    {
      hide ParseItem, ParseItems, ParseInt;
      items := found;
      ItemsKeepIds(db.View(), webRoot, ids);
      for k := 0 to |items|
        invariant |items| == |ids|
        invariant forall j :: 0 <= j < |ids| ==>
                    items[j] == if j < k then WithChildCount(db.View(), found[j], ids[j]) else found[j]
      {
        if items[k].upnpClass.IsContainer() {
          assert ParseItem(db.View(), webRoot, ids[k]) == Some(items[k]);
          ItemHasId(db.View(), webRoot, ids[k]);
          var childCount := db.GetChildCount(ParseInt(items[k].objectId).value);
          items := items[k := items[k].(childCount := Some(Count32(childCount)))];
        }
      }
    }

    /** None where the source throws: for an id that is not a number, an object that does
        not exist, or a file that cannot be offered. */
    method Browse(id: string, flag: BrowseFlag, startIndex: uint32, count: uint32)
      returns (result: Option<ActionResult>)
      requires IdsFit(db.View())
      ensures result == BrowseResult(db.View(), webRoot, id, flag, startIndex, count)
    {
      hide ParseItem, ParseItems, ParseInt;
      var number := ParseInt(id);
      if number.None? {
        return None;
      }
      var found: Option<seq<UpnpItem>>;
      var totalMatches: uint32 := 1;
      ghost var ids: seq<int>;
      if flag == DirectChildren {
        found := GetItems(number.value, startIndex, count);
        var total := db.GetChildCount(number.value);
        totalMatches := Count32(total);
        ids := Page(db.View().Children(number.value), startIndex, LimitOf(count));
        PageFits(db.View(), number.value, startIndex, LimitOf(count));
      } else {
        var item := ParseItem(db.View(), webRoot, number.value);
        found := if item.None? then None else Some([item.value]);
        ids := [number.value];
        ParseOne(db.View(), webRoot, number.value);
      }
      if found.None? {
        return None;
      }
      var numberReturned: uint32 := if flag == DirectChildren then Count32(|found.value|) else 1;
      ItemsKeepIds(db.View(), webRoot, ids);
      var items := SetChildCounts(found.value, ids);
      return Some(ActionResult(items, 1, totalMatches, numberReturned));
    }
  }

  lemma NothingParsed(db: Db, webRoot: string)
    ensures ParseItems(db, webRoot, []) == Some([])
  {
  }

  lemma ParsedNext(db: Db, webRoot: string, ids: seq<int>, k: nat)
    requires k < |ids| && ParseItems(db, webRoot, ids[..k]).Some? && ParseItem(db, webRoot, ids[k]).Some?
    ensures ParseItems(db, webRoot, ids[..k + 1]) ==
            Some(ParseItems(db, webRoot, ids[..k]).value + [ParseItem(db, webRoot, ids[k]).value])
  {
    hide ParseItem;
    assert ids[..k + 1][..k] == ids[..k];
  }

  lemma {:induction false} FailsAtOnce(db: Db, webRoot: string, ids: seq<int>, k: nat)
    requires k < |ids| && ParseItem(db, webRoot, ids[k]).None?
    ensures ParseItems(db, webRoot, ids).None?
  {
    hide ParseItem;
    if k < |ids| - 1 {
      FailsAtOnce(db, webRoot, ids[..|ids| - 1], k);
    }
  }

  lemma ParseOne(db: Db, webRoot: string, id: int)
    ensures ParseItems(db, webRoot, [id]) == match ParseItem(db, webRoot, id) case None => None
            case Some(item) => Some([item])
  {
    hide ParseItem;
    assert [id][..0] == [];
    var item := ParseItem(db, webRoot, id);
    if item.Some? {
      assert [] + [item.value] == [item.value];
    }
  }

  lemma PageFits(db: Db, parentId: int, offset: nat, limit: nat)
    requires IdsFit(db)
    ensures var ids := Page(db.Children(parentId), offset, limit);
            forall k :: 0 <= k < |ids| ==> 0 <= ids[k] < 0x8000_0000_0000_0000
  {
    var ids := Page(db.Children(parentId), offset, limit);
    forall k | 0 <= k < |ids|
      ensures ids[k] in db.objects.ids
    {
      assert ids[k] in db.Children(parentId);
    }
  }

  /** What Browse answers. */
  function BrowseResult(db: Db, webRoot: string, id: string, flag: BrowseFlag, startIndex: uint32, count: uint32)
    : Option<ActionResult>
  {
    var number := ParseInt(id);
    if number.None? then None
    else
      var ids := if flag == DirectChildren then Page(db.Children(number.value), startIndex, LimitOf(count))
          else [number.value];
      var items := ParseItems(db, webRoot, ids);
      if items.None? || |items.value| != |ids| then None
      else
        Some(ActionResult(WithChildCounts(db, items.value, ids), 1,
                          if flag == DirectChildren then Count32(|db.Children(number.value)|) else 1,
                          Count32(|ids|)))
  }

  // ----- Every object can be offered -----

  /** Every file object of a sound database has a path, and a type with an extension. */
  lemma FilesArePlayable(db: Db, id: int)
    requires IsSound(db) && id in db.objects.rows && !db.objects.rows[id].upnpClass.IsContainer()
    ensures db.ContentAt(id).Some? && db.ContentAt(id).value.filePath.Some? && IsPlayable(db.ContentAt(id).value)
  {
    hide IsPlayable, UpnpClass.IsContainer, AlbumsDistinct, IsFixed, Table.Valid;
    assert IsSoundRow(db, id, db.objects.rows[id]);
  }

  lemma SoundItemsParse(db: Db, webRoot: string, id: int)
    requires IsSound(db) && id in db.objects.rows
    ensures ParseItem(db, webRoot, id).Some?
  {
    hide IsSound, Mime.ExtensionFromType, Mime.TypeFromString, UpnpClass.IsContainer, PrintInt, UrlOf;
    if !db.objects.rows[id].upnpClass.IsContainer() {
      FilesArePlayable(db, id);
    }
  }

  // ----- Pages -----

  ghost predicate Fits64(n: int) {
    -0x8000_0000_0000_0000 <= n < 0x8000_0000_0000_0000
  }

  /** The item that a page shows for an object. */
  function Shown(db: Db, webRoot: string, id: int): UpnpItem
    requires ParseItem(db, webRoot, id).Some?
  {
    WithChildCount(db, ParseItem(db, webRoot, id).value, id)
  }

  ghost predicate AllParse(db: Db, webRoot: string, ids: seq<int>) {
    forall k :: 0 <= k < |ids| ==> ParseItem(db, webRoot, ids[k]).Some?
  }

  lemma {:induction false} AllParsed(db: Db, webRoot: string, ids: seq<int>)
    requires AllParse(db, webRoot, ids)
    ensures ParseItems(db, webRoot, ids).Some?
  {
    hide ParseItem;
    if ids != [] {
      AllParsed(db, webRoot, ids[..|ids| - 1]);
    }
  }

  lemma ChildrenParse(db: Db, webRoot: string, parentId: int)
    requires IsSound(db)
    ensures AllParse(db, webRoot, db.Children(parentId))
  {
    hide IsSound, ParseItem;
    var ids := db.Children(parentId);
    forall k | 0 <= k < |ids|
      ensures ParseItem(db, webRoot, ids[k]).Some?
    {
      assert ids[k] in ids;
      SoundItemsParse(db, webRoot, ids[k]);
    }
  }

  lemma PageTakes<T>(all: seq<T>, offset: nat, limit: nat)
    ensures var page := Page(all, offset, limit);
            |page| <= limit && |page| <= |all| && forall k :: 0 <= k < |page| ==>
                offset + k < |all| && page[k] == all[offset + k]
  {
  }

  lemma ItemsShown(db: Db, webRoot: string, ids: seq<int>)
    requires AllParse(db, webRoot, ids)
    ensures var items := ParseItems(db, webRoot, ids);
            && items.Some? && |items.value| == |ids| == |WithChildCounts(db, items.value, ids)|
            && forall k :: 0 <= k < |ids| ==> WithChildCounts(db, items.value, ids)[k] == Shown(db, webRoot, ids[k])
  {
    hide ParseItem, ParseItems, WithChildCount;
    AllParsed(db, webRoot, ids);
    ItemsKeepIds(db, webRoot, ids);
  }

  /** A page shows the children from its offset on, in order. */
  lemma PageShows(db: Db, webRoot: string, parentId: int, startIndex: uint32, count: uint32)
    requires AllParse(db, webRoot, db.Children(parentId)) && ParseInt(PrintInt(parentId)) == Some(parentId)
    ensures var result, ids := BrowseResult(db, webRoot, PrintInt(parentId), DirectChildren, startIndex, count),
                               Page(db.Children(parentId), startIndex, LimitOf(count));
            && result.Some?
            && result.value.totalMatches == Count32(|db.Children(parentId)|)
            && result.value.numberReturned == |ids| == |result.value.items|
            && AllParse(db, webRoot, ids)
            && forall k :: 0 <= k < |ids| ==> result.value.items[k] == Shown(db, webRoot, ids[k])
  {
    hide ParseItem, ParseItems, ParseInt, PrintInt, WithChildCount, WithChildCounts, Db.Children, Shown;
    var children, ids := db.Children(parentId), Page(db.Children(parentId), startIndex, LimitOf(count));
    PageTakes(children, startIndex, LimitOf(count));
    hide Page, LimitOf;
    ItemsShown(db, webRoot, ids);
  }

  /** A page is answered exactly if everything on it can be offered. */
  lemma PageFailsExactly(db: Db, webRoot: string, parentId: int, startIndex: uint32, count: uint32)
    requires -0x8000_0000_0000_0000 <= parentId < 0x8000_0000_0000_0000
    ensures BrowseResult(db, webRoot, PrintInt(parentId), DirectChildren, startIndex, count) == None <==>
            exists id ::
              id in Page(db.Children(parentId), startIndex, LimitOf(count)) && ParseItem(db, webRoot, id) == None
  {
    hide ParseItem, ParseInt, PrintInt, Db.Children, Page, LimitOf, WithChildCounts;
    PrintParse(parentId);
    var ids := Page(db.Children(parentId), startIndex, LimitOf(count));
    if id :| id in ids && ParseItem(db, webRoot, id) == None {
      var k: nat :| k < |ids| && ids[k] == id;
      FailsAtOnce(db, webRoot, ids, k);
    } else {
      forall k | 0 <= k < |ids|
        ensures ParseItem(db, webRoot, ids[k]).Some?
      {
        assert ids[k] in ids;
      }
      ItemsShown(db, webRoot, ids);
    }
  }

  /** A file that a cut prune left without metadata breaks every page that it is on. */
  lemma StrandedBreaksPage(db: Db, cut: Db, exists': Path -> bool, id: int, webRoot: string, startIndex: uint32,
                           count: uint32)
    requires IsStrandedFile(db, cut, id, exists')
    requires var parentId := cut.objects.rows[id].parentId;
             && -0x8000_0000_0000_0000 <= parentId < 0x8000_0000_0000_0000
             && id in Page(cut.Children(parentId), startIndex, LimitOf(count))
    ensures var parentId := cut.objects.rows[id].parentId;
            BrowseResult(cut, webRoot, PrintInt(parentId), DirectChildren, startIndex, count) == None
  {
    var parentId := cut.objects.rows[id].parentId;
    assert ParseItem(cut, webRoot, id) == None by {
      NoTypeNoExtension();
    }
    hide ParseItem, ParseInt, PrintInt, Db.Children, Page, LimitOf, BrowseResult, IsStrandedFile;
    PageFailsExactly(cut, webRoot, parentId, startIndex, count);
  }

  lemma NoTypeNoExtension()
    ensures Mime.ExtensionFromType(Mime.TypeFromString("")) == None
  {
  }

  lemma BrowsedItem(db: Db, webRoot: string, id: string, flag: BrowseFlag, startIndex: uint32, count: uint32, k: nat)
    returns (child: int)
    requires IdsFit(db) && BrowseResult(db, webRoot, id, flag, startIndex, count).Some?
    requires k < |BrowseResult(db, webRoot, id, flag, startIndex, count).value.items|
    ensures -0x8000_0000_0000_0000 <= child < 0x8000_0000_0000_0000 && ParseItem(db, webRoot, child).Some?
    ensures BrowseResult(db, webRoot, id, flag, startIndex, count).value.items[k] == Shown(db, webRoot, child)
  {
    hide ParseItem, ParseItems, Page, LimitOf, Db.Children, WithChildCount;
    var number := ParseInt(id).value;
    hide ParseInt;
    var ids := if flag == DirectChildren then Page(db.Children(number), startIndex, LimitOf(count)) else [number];
    if flag == DirectChildren {
      PageFits(db, number, startIndex, LimitOf(count));
    }
    ItemsKeepIds(db, webRoot, ids);
    child := ids[k];
  }

  /** The child count of a container, wherever it is shown, is the total that Browse answers
      for its own id; nothing else has a child count. */
  lemma ChildCountIsTotal(db: Db, webRoot: string, id: string, flag: BrowseFlag, startIndex: uint32, count: uint32,
                          k: nat, startIndex': uint32, count': uint32)
    requires IsSound(db) && IdsFit(db) && BrowseResult(db, webRoot, id, flag, startIndex, count).Some?
    requires k < |BrowseResult(db, webRoot, id, flag, startIndex, count).value.items|
    ensures var item := BrowseResult(db, webRoot, id, flag, startIndex, count).value.items[k];
            var below := BrowseResult(db, webRoot, item.objectId, DirectChildren, startIndex', count');
            && below.Some?
            && item.childCount == if item.upnpClass.IsContainer() then Some(below.value.totalMatches) else None
  {
    hide BrowseResult, IsSound, ParseItem, ParseInt, PrintInt, Db.Children, UpnpClass.IsContainer, Page, LimitOf;
    var child := BrowsedItem(db, webRoot, id, flag, startIndex, count, k);
    PlainItem(db, webRoot, child);
    ChildrenParse(db, webRoot, child);
    PrintParse(child);
    PageShows(db, webRoot, child, startIndex', count');
  }

  /** The title of an object's metadata, and its name if there is none. */
  lemma TitleOfItem(db: Db, webRoot: string, id: int)
    requires ParseItem(db, webRoot, id).Some?
    ensures id in db.objects.rows
    ensures var title, content := ParseItem(db, webRoot, id).value.title, db.ContentAt(id);
            if content.Some? && content.value.title.Some? then Some(title) == content.value.title
            else title == db.objects.rows[id].name
  {
    hide Mime.ExtensionFromType, Mime.TypeFromString, PrintInt, UrlOf;
  }

  lemma PlainItem(db: Db, webRoot: string, id: int)
    requires ParseItem(db, webRoot, id).Some?
    ensures var item := ParseItem(db, webRoot, id).value; item.objectId == PrintInt(id) && item.childCount == None
  {
    hide Mime.ExtensionFromType, Mime.TypeFromString, PrintInt, UrlOf;
  }

  /** Browsing the metadata of an object gives the item that its parent's listing shows. */
  lemma MetadataIsListed(db: Db, webRoot: string, id: int, startIndex: uint32, count: uint32, startIndex': uint32,
                         count': uint32, k: nat)
    requires IsSound(db) && IdsFit(db) && id in db.objects.rows && id != 0
    requires var page := Page(db.Children(db.objects.rows[id].parentId), startIndex', LimitOf(count'));
             k < |page| && page[k] == id
    ensures var meta := BrowseResult(db, webRoot, PrintInt(id), Metadata, startIndex, count);
            var listing :=
              BrowseResult(db, webRoot, PrintInt(db.objects.rows[id].parentId), DirectChildren, startIndex', count');
            && meta.Some? && listing.Some? && k < |listing.value.items|
            && meta.value.items == [listing.value.items[k]]
            && meta.value.totalMatches == meta.value.numberReturned == 1
  {
    hide IsSound, ParseItem, ParseInt, PrintInt, Db.Children, Page, LimitOf, Table.Valid, WithChildCount;
    var parentId := db.objects.rows[id].parentId;
    ParentFits(db, id);
    ChildrenParse(db, webRoot, parentId);
    PrintParse(parentId);
    PageShows(db, webRoot, parentId, startIndex', count');
    MetadataShown(db, webRoot, id, startIndex, count);
    hide BrowseResult;
  }

  /** Every object but the root is listed: a page from somewhere on under its parent starts
      with the item that stands for it. */
  lemma EveryObjectIsListed(db: Db, webRoot: string, id: int, count: uint32) returns (startIndex: uint32)
    requires IsSound(db) && IdsFit(db) && id in db.objects.rows && id != 0 && count > 0
    requires |db.Children(db.objects.rows[id].parentId)| < 0x1_0000_0000
    ensures var listing :=
              BrowseResult(db, webRoot, PrintInt(db.objects.rows[id].parentId), DirectChildren, startIndex, count);
            && listing.Some? && listing.value.items != []
            && ParseInt(listing.value.items[0].objectId) == Some(id)
  {
    hide IsSound, ParseItem, ParseInt, PrintInt, Page, LimitOf, IsFixed, IsOffered;
    var parentId := db.objects.rows[id].parentId;
    var children := db.Children(parentId);
    assert id in children by {
      IsInRows(db, id);
    }
    var k: nat :| k < |children| && children[k] == id;
    hide Db.Children;
    startIndex := k;
    PageStarts(children, k, count);
    ParentFits(db, id);
    MetadataIsListed(db, webRoot, id, 0, 0, k, count, 0);
    MetadataShown(db, webRoot, id, 0, 0);
    hide BrowseResult;
    PrintedIds(db, webRoot, id);
  }

  lemma IsInRows(db: Db, id: int)
    requires IsSound(db) && id in db.objects.rows
    ensures id in db.objects.ids
  {
    hide IsFixed, IsOffered, AlbumsDistinct;
  }

  lemma PageStarts<T>(all: seq<T>, offset: uint32, count: uint32)
    requires offset < |all| && count > 0
    ensures var page := Page(all, offset, LimitOf(count)); page != [] && page[0] == all[offset]
  {
  }

  /** And nothing else is: each item of a page names the container as its parent. */
  lemma ListedItemNamesParent(db: Db, webRoot: string, parentId: int, startIndex: uint32, count: uint32, k: nat)
    requires IsSound(db) && IdsFit(db) && Fits64(parentId)
    requires var listing := BrowseResult(db, webRoot, PrintInt(parentId), DirectChildren, startIndex, count);
             listing.Some? && k < |listing.value.items|
    ensures var listing := BrowseResult(db, webRoot, PrintInt(parentId), DirectChildren, startIndex, count);
            ParseInt(listing.value.items[k].parentId) == Some(parentId)
  {
    hide IsSound, ParseItem, ParseInt, PrintInt, LimitOf, IsFixed, IsOffered;
    PrintParse(parentId);
    ChildrenParse(db, webRoot, parentId);
    PageShows(db, webRoot, parentId, startIndex, count);
    PageTakes(db.Children(parentId), startIndex, LimitOf(count));
    hide BrowseResult, Page;
    var child := db.Children(parentId)[startIndex + k];
    assert child in db.Children(parentId);
    PrintedIds(db, webRoot, child);
  }

  lemma ParentFits(db: Db, id: int)
    requires IsSound(db) && IdsFit(db) && id in db.objects.rows && id != 0
    ensures 0 <= db.objects.rows[id].parentId < 0x8000_0000_0000_0000 && 0 <= id < 0x8000_0000_0000_0000
  {
    hide AlbumsDistinct, IsFixed, IsOffered;
    assert IsSoundRow(db, id, db.objects.rows[id]);
    assert id in db.objects.ids && db.objects.rows[id].parentId in db.objects.ids;
  }

  /** For every object of a sound database, the root too: one item, counted as one. */
  lemma MetadataShown(db: Db, webRoot: string, id: int, startIndex: uint32, count: uint32)
    requires IsSound(db) && id in db.objects.rows && 0 <= id < 0x8000_0000_0000_0000
    ensures ParseItem(db, webRoot, id).Some?
    ensures BrowseResult(db, webRoot, PrintInt(id), Metadata, startIndex, count) ==
            Some(ActionResult([Shown(db, webRoot, id)], 1, 1, 1))
  {
    hide IsSound, ParseItem, ParseInt, PrintInt, Db.Children, Page, LimitOf, WithChildCount;
    SoundItemsParse(db, webRoot, id);
    PrintParse(id);
    ParseOne(db, webRoot, id);
    var item := ParseItem(db, webRoot, id).value;
    assert WithChildCounts(db, [item], [id]) == [WithChildCount(db, item, id)];
  }

  /** The items of pages of `count` at startIndex, startIndex + count, and so on, to the end. */
  ghost function Walk(db: Db, webRoot: string, parentId: int, startIndex: uint32, count: uint32): seq<UpnpItem>
    requires count > 0 && |db.Children(parentId)| < 0x1_0000_0000
    decreases |db.Children(parentId)| - startIndex
  {
    var result := BrowseResult(db, webRoot, PrintInt(parentId), DirectChildren, startIndex, count);
    var items := if result.Some? then result.value.items else [];
    if startIndex + count >= |db.Children(parentId)| then items
    else items + Walk(db, webRoot, parentId, startIndex + count, count)
  }

  /** What the pages say they return, added up. */
  ghost function WalkReturned(db: Db, webRoot: string, parentId: int, startIndex: uint32, count: uint32): nat
    requires count > 0 && |db.Children(parentId)| < 0x1_0000_0000
    decreases |db.Children(parentId)| - startIndex
  {
    var result := BrowseResult(db, webRoot, PrintInt(parentId), DirectChildren, startIndex, count);
    var returned: nat := if result.Some? then result.value.numberReturned else 0;
    if startIndex + count >= |db.Children(parentId)| then returned
    else returned + WalkReturned(db, webRoot, parentId, startIndex + count, count)
  }

  lemma {:induction false} WalkShowsRest(db: Db, webRoot: string, parentId: int, startIndex: uint32, count: uint32)
    requires count > 0 && |db.Children(parentId)| < 0x1_0000_0000 && startIndex <= |db.Children(parentId)|
    requires AllParse(db, webRoot, db.Children(parentId)) && ParseInt(PrintInt(parentId)) == Some(parentId)
    ensures var items, children := Walk(db, webRoot, parentId, startIndex, count), db.Children(parentId);
            && |items| == WalkReturned(db, webRoot, parentId, startIndex, count) == |children| - startIndex
            && forall k :: startIndex <= k < |children| ==> items[k - startIndex] == Shown(db, webRoot, children[k])
    decreases |db.Children(parentId)| - startIndex
  {
    hide ParseItem, ParseInt, PrintInt, WithChildCount, Db.Children, BrowseResult, Shown;
    PageShows(db, webRoot, parentId, startIndex, count);
    if startIndex + count < |db.Children(parentId)| {
      WalkShowsRest(db, webRoot, parentId, startIndex + count, count);
    }
  }

  /** Pages of any size, one after the other, give what a count of 0 gives at once, and
      the total is the sum of the numbers returned. */
  lemma PagesMakeListing(db: Db, webRoot: string, parentId: int, count: uint32)
    requires IsSound(db) && count > 0
    requires 0 <= parentId < 0x8000_0000_0000_0000 && |db.Children(parentId)| < 0x1_0000_0000
    ensures var whole := BrowseResult(db, webRoot, PrintInt(parentId), DirectChildren, 0, 0);
            && whole.Some?
            && Walk(db, webRoot, parentId, 0, count) == whole.value.items
            && whole.value.totalMatches == WalkReturned(db, webRoot, parentId, 0, count) == |db.Children(parentId)|
  {
    hide IsSound, ParseItem, ParseInt, PrintInt, WithChildCount, Db.Children, BrowseResult, Shown, Walk,
         WalkReturned;
    ChildrenParse(db, webRoot, parentId);
    PrintParse(parentId);
    WalkShowsRest(db, webRoot, parentId, 0, count);
    PageShows(db, webRoot, parentId, 0, 0);
  }

  /** Browse lists all children at once, and its total counts them, exactly if there are
      fewer than 2^32. */
  lemma ListingIsWholeExactly(db: Db, webRoot: string, parentId: int)
    requires IsSound(db) && -0x8000_0000_0000_0000 <= parentId < 0x8000_0000_0000_0000
    ensures var result, n := BrowseResult(db, webRoot, PrintInt(parentId), DirectChildren, 0, 0),
            |db.Children(parentId)|;
            && result.Some?
            && (|result.value.items| == n <==> n < 0x1_0000_0000)
            && (result.value.totalMatches == n <==> n < 0x1_0000_0000)
  {
    hide IsSound, ParseItem, ParseInt, PrintInt, Db.Children, BrowseResult, Shown;
    ChildrenParse(db, webRoot, parentId);
    PrintParse(parentId);
    PageShows(db, webRoot, parentId, 0, 0);
  }

  // A library directory that holds `n` directories, and the database after its first scan.

  function Name(n: nat): string {
    seq(n, _ => 'a')
  }

  function WideTree(n: nat): seq<FileEntry> {
    if n == 0 then [] else WideTree(n - 1) + [Directory(Name(n), "", [])]
  }

  function WideVisit(path: Path, n: nat): Visit {
    Visit(path + [Name(n)], Layout(BROWSE_FILE_SYSTEM_ID), Directory(Name(n), "", []))
  }

  function WideItem(n: nat): LibraryItem {
    LibraryItem(0, BROWSE_FILE_SYSTEM_ID, 0, Name(n), Container)
  }

  /** The layout `db` with `n` directories. */
  function Wide(db: Db, path: Path, n: nat): Db {
    if n == 0 then db else WithItem(Wide(db, path, n - 1), WideItem(n), DirectoryMetadata(WideVisit(path, n)))
  }

  lemma WideVisits(path: Path, n: nat)
    requires n > 0
    ensures AllVisits(path, WideTree(n)) == AllVisits(path, WideTree(n - 1)) + [WideVisit(path, n)]
  {
    hide Name;
    var entries, parent := WideTree(n), Layout(BROWSE_FILE_SYSTEM_ID);
    assert entries[..|entries| - 1] == WideTree(n - 1) && entries[|entries| - 1] == WideVisit(path, n).entry;
    assert Visits(path + [Name(n)], Node(path + [Name(n)]), []) == [];
    assert VisitsOf(path, parent, WideVisit(path, n).entry) == [WideVisit(path, n)];
  }

  lemma WidePlaced(db: Db, path: Path, n: nat)
    requires IsLibrary(db)
    ensures IsPlaced(IndexOf(db), WideVisit(path, n))
    ensures BROWSE_FILE_SYSTEM_ID in db.objects.rows && IdentOf(db, BROWSE_FILE_SYSTEM_ID) == WideVisit(path, n).parent
  {
    hide Core, IndexOf, IdentOf, WellPlaced;
    LayoutObject(db, BROWSE_FILE_SYSTEM_ID);
  }

  /** What a scan of the directories makes of the layout. */
  lemma {:induction false} WideIsScanned(db: Db, path: Path, n: nat)
    requires HasLayout(db, 4)
    ensures HasTakenIn(db, Wide(db, path, n), AllVisits(path, WideTree(n)))
    ensures forall k :: k > n ==> NewPath(Wide(db, path, n), path + [Name(k)])
  {
    hide HasLayout, IsLibrary, IndexOf, IdentOf, Fold, Extends, NewPath, KeepsNew, AllVisits, WithItem, IsPlaced,
         DirectoryMetadata;
    LayoutIsLibrary(db);
    if n == 0 {
      NothingTakenIn(db);
      assert AllVisits(path, WideTree(0)) == [] by { NothingWide(path); }
      return;
    }
    var before, v := Wide(db, path, n - 1), WideVisit(path, n);
    WideIsScanned(db, path, n - 1);
    WidePlaced(before, path, n);
    DirectoryTakenIn(before, WideItem(n), v);
    TakenInTransitive(db, before, Wide(db, path, n), AllVisits(path, WideTree(n - 1)), [v]);
    WideVisits(path, n);
    forall k | k > n
      ensures NewPath(Wide(db, path, n), path + [Name(k)])
    {
      OtherWidePath(path, n, k);
      StillNewPath(before, Wide(db, path, n), v, path + [Name(k)]);
    }
  }

  lemma NothingTakenIn(db: Db)
    requires IsLibrary(db)
    ensures HasTakenIn(db, db, [])
  {
    hide IsLibrary, IndexOf;
    NothingNew(db);
  }

  lemma NothingWide(path: Path)
    ensures AllVisits(path, WideTree(0)) == []
  {
  }

  lemma OtherWidePath(path: Path, n: nat, k: nat)
    requires k != n
    ensures path + [Name(k)] != path + [Name(n)]
  {
    assert |Name(k)| != |Name(n)|;
    assert (path + [Name(k)])[|path|] == Name(k) && (path + [Name(n)])[|path|] == Name(n);
  }

  lemma StillNewPath(db: Db, db': Db, v: Visit, path: Path)
    requires KeepsNew(db, db', [v]) && NewPath(db, path) && path != v.path
    ensures NewPath(db', path)
  {
    hide NewPath;
    assert IsUnvisited([v], path);
  }

  // The containers that a scan of the directories puts under "Browse filesystem".

  lemma {:induction false} FilterAgrees(ids: seq<int>, p: int -> bool, q: int -> bool)
    requires forall x :: x in ids ==> (p(x) <==> q(x))
    ensures Filter(ids, p) == Filter(ids, q)
  {
    if ids != [] {
      var last := ids[|ids| - 1];
      assert last in ids;
      FilterAgrees(ids[..|ids| - 1], p, q);
    }
  }

  lemma {:induction false} FilterNone(ids: seq<int>, p: int -> bool)
    requires forall x :: x in ids ==> !p(x)
    ensures Filter(ids, p) == []
  {
    if ids != [] {
      var last := ids[|ids| - 1];
      assert last in ids;
      FilterNone(ids[..|ids| - 1], p);
    }
  }

  /** An object that is added is the last child of its parent. */
  lemma NewChild(db: Db, item: LibraryItem, meta: LibraryMetadata)
    requires db.Valid()
    ensures WithItem(db, item, meta).Children(item.parentId) == db.Children(item.parentId) + [db.objects.NextId()]
  {
    InsertKeepsValid(db.objects, RowOf(item, db.metadata.NextId()));
    var db', id := WithItem(db, item, meta), db.objects.NextId();
    assert db'.objects.ids[..|db'.objects.ids| - 1] == db.objects.ids;
    FilterAgrees(db.objects.ids, x => db'.IsChild(x, item.parentId), x => db.IsChild(x, item.parentId));
  }

  lemma {:induction false} WideChildren(db: Db, path: Path, n: nat)
    requires HasLayout(db, 4)
    ensures |Wide(db, path, n).Children(BROWSE_FILE_SYSTEM_ID)| == n
  {
    hide HasLayout, WithItem, Db.Children, IsSound, Db.Valid, Name;
    if n == 0 {
      LayoutChildren(db);
    } else {
      WideChildren(db, path, n - 1);
      WideIsValid(db, path, n - 1);
      NewChild(Wide(db, path, n - 1), WideItem(n), DirectoryMetadata(WideVisit(path, n)));
    }
  }

  lemma LayoutChildren(db: Db)
    requires HasLayout(db, 4)
    ensures |db.Children(BROWSE_FILE_SYSTEM_ID)| == 0
  {
    hide Filter, ContentOf, Table.Valid;
    FilterNone(db.objects.ids, id => db.IsChild(id, BROWSE_FILE_SYSTEM_ID));
  }

  lemma WideIsValid(db: Db, path: Path, n: nat)
    requires HasLayout(db, 4)
    ensures Wide(db, path, n).Valid() && IsSound(Wide(db, path, n))
  {
    hide HasLayout, IsLibrary, Wide, IsSound;
    WideIsScanned(db, path, n);
    LibraryIsSound(Wide(db, path, n));
    SoundIsValid(Wide(db, path, n));
  }

  /** What Browse answers after the first scan of `n` directories: of 2^32 one is missing
      from the list, and the total is 0. */
  lemma BrowseMissesChildren(path: Path, webRoot: string, n: nat) returns (db: Db)
    ensures IsScan(EMPTY, db, path, WideTree(n), AllVisits(path, WideTree(n)))
    ensures |db.Children(BROWSE_FILE_SYSTEM_ID)| == n
    ensures var result := BrowseResult(db, webRoot, PrintInt(BROWSE_FILE_SYSTEM_ID), DirectChildren, 0, 0);
            && result.Some?
            && |result.value.items| == (if n < 0x1_0000_0000 then n else 0xFFFF_FFFF)
            && result.value.totalMatches == n % 0x1_0000_0000
  {
    hide HasLayout, IsLibrary, IndexOf, IsSound, Wide, WideTree, AllVisits, ParseItem, ParseInt, PrintInt, Db.Children,
         BrowseResult, Shown, AllParse, Fold;
    var layout := SomeLayout();
    db := Wide(layout, path, n);
    LayoutIsLibrary(layout);
    WideIsScanned(layout, path, n);
    WideChildren(layout, path, n);
    WideIsValid(layout, path, n);
    ChildrenParse(db, webRoot, BROWSE_FILE_SYSTEM_ID);
    PrintParse(BROWSE_FILE_SYSTEM_ID);
    PageShows(db, webRoot, BROWSE_FILE_SYSTEM_ID, 0, 0);
  }

  // ----- From the file to the item -----

  /** What a file or directory of the tree is shown as: by its tags if it is a song that has
      them, by its name if they give no title. */
  ghost predicate ShowsEntry(item: UpnpItem, entry: FileEntry, webRoot: string)
    requires entry.Directory? || entry.RegularFile?
  {
    var tags := if entry.RegularFile? && item.upnpClass == AudioItem then entry.tags else None;
    && item.title == (if tags.Some? && tags.value.title != "" then tags.value.title else entry.name)
    && item.artist == (if tags.Some? then tags.value.artist else "")
    && item.genre == (if tags.Some? then tags.value.genre else "")
    && (var thumbnail := if entry.Directory? then entry.thumbnail else if tags.Some? then tags.value.thumbnail else "";
        && (item.albumArt.Some? <==> thumbnail != "")
        && (item.albumArt.Some? ==> IsJoined(item.albumArt.value, webRoot, thumbnail)))
    && item.upnpClass.IsContainer() == entry.Directory?
    && item.resource.Some? == entry.RegularFile?
    && (entry.RegularFile? ==> ShowsFileData(item.resource.value, item.upnpClass, entry, tags))
  }

  ghost predicate ShowsFileData(resource: Resource, upnpClass: UpnpClass, entry: FileEntry, tags: Option<Tags>)
    requires entry.RegularFile?
  {
    && resource.size == entry.size && IsProtocolOf(resource.protocolInfo, upnpClass)
    && var audio := if tags.Some? then tags.value.audio else AudioProperties(0, 0, 0, 0);
       resource.audio ==
       AudioProperties(audio.duration % 0x1_0000_0000, audio.nrChannels % 0x1_0000_0000,
                       audio.bitrate % 0x1_0000_0000, audio.sampleRate % 0x1_0000_0000)
  }

  /** One path after the other, with a slash between them. */
  ghost predicate IsJoined(path: string, left: string, right: string) {
    && |left| + |right| <= |path| <= |left| + 1 + |right|
    && path[..|left|] == left && path[|path| - |right|..] == right
    && (left != "" ==> path[|path| - |right| - 1] == '/')
    && (left == "" || left[|left| - 1] == '/' ==> |path| == |left| + |right|)
  }

  ghost predicate IsProtocolOf(protocolInfo: string, upnpClass: UpnpClass) {
    match upnpClass
    case VideoItem => "http-get:*:video/" <= protocolInfo
    case ImageItem => "http-get:*:image/" <= protocolInfo
    case _ => "http-get:*:audio/" <= protocolInfo || protocolInfo == "http-get:*:application/ogg:*"
  }

  /** After a full scan every directory and every playable file has an object that is shown
      as that entry says, under the id of its parent, and its resource is that file. */
  lemma ScannedEntryIsShown(db: Db, path: Path, entries: seq<FileEntry>, below: Path, entry: FileEntry,
                            webRoot: string) returns (id: int)
    requires NamesDistinct(entries) && IsScan(EMPTY, db, path, entries, AllVisits(path, entries))
    requires Holds(entries, below, entry) && GetsObject(entry) && IdsFit(db)
    ensures id in db.objects.rows && IdentOf(db, id) == Node(path + below) && ParseItem(db, webRoot, id).Some?
    ensures var item := ParseItem(db, webRoot, id).value;
            && ParseInt(item.objectId) == Some(id) && ParseInt(item.parentId) == Some(db.objects.rows[id].parentId)
            && ShowsEntry(item, entry, webRoot)
            && (entry.RegularFile? ==> FileBehind(db, item.resource.value.url) == Some(path + below))
  {
    hide Core, Shape, Visits, IndexOf, Fold, Extends, IdentOf, NamesDistinct, Holds, ParentOf, ParseItem, IsSound,
         ParseInt, ShowsEntry, FileBehind;
    id := EntryHasObject(db, path, entries, below, entry);
    LibraryIsSound(db);
    SoundItemsParse(db, webRoot, id);
    NodeIsNotRoot(db, id, path + below);
    ParentFits(db, id);
    hide IsFileContent, IsDirectoryContent, ClassOfFile;
    PrintedIds(db, webRoot, id);
    EntryOfItem(db, webRoot, id, path + below, entry);
    if entry.RegularFile? {
      FileIsNoContainer(db.ContentAt(id).value, path + below, entry, db.objects.rows[id].upnpClass);
      ResourceLeadsToFile(db, webRoot, id);
    }
  }

  lemma NodeIsNotRoot(db: Db, id: int, path: Path)
    requires IsLibrary(db) && IdentOf(db, id) == Node(path)
    ensures id != 0
  {
    hide Core, Shape, IdentOf;
    LayoutObject(db, 0);
  }

  lemma FileIsNoContainer(content: Content, path: Path, entry: FileEntry, upnpClass: UpnpClass)
    requires entry.RegularFile? && IsFileContent(content, path, entry, upnpClass)
    ensures !upnpClass.IsContainer() && content.filePath == Some(path)
  {
  }

  /** The ids that an item prints are those of its object, within 64 bits. */
  lemma PrintedIds(db: Db, webRoot: string, id: int)
    requires ParseItem(db, webRoot, id).Some?
    ensures id in db.objects.rows
    ensures var item, row := ParseItem(db, webRoot, id).value, db.objects.rows[id];
            && (Fits64(id) ==> ParseInt(item.objectId) == Some(id))
            && (Fits64(row.parentId) ==> ParseInt(item.parentId) == Some(row.parentId))
            && item.refId.Some? == row.refId.Some?
            && (row.refId.Some? && Fits64(row.refId.value) ==> ParseInt(item.refId.value) == row.refId)
  {
    var row := db.objects.rows[id];
    if Fits64(id) {
      PrintParse(id);
    }
    if Fits64(row.parentId) {
      PrintParse(row.parentId);
    }
    if row.refId.Some? && Fits64(row.refId.value) {
      PrintParse(row.refId.value);
    }
    hide ParseInt, PrintInt, Mime.ExtensionFromType, Mime.TypeFromString, UrlOf;
  }

  /** The item of an object and its content, column by column. */
  ghost predicate IsItemOf(item: UpnpItem, row: ObjectRow, content: Content, webRoot: string) {
    && item.title == (if content.title.Some? then content.title.value else row.name)
    && item.artist == TextOf(content.artist) && item.genre == TextOf(content.genre)
    && item.albumArt ==
       (if content.thumbnail.Some? then Some(CombinePath(webRoot, content.thumbnail.value)) else None)
    && item.upnpClass == row.upnpClass && item.resource.Some? == !row.upnpClass.IsContainer()
    && (item.resource.Some? ==>
          && item.resource.value.size == content.fileSize && item.resource.value.audio == Audio32(content.audio)
          && item.resource.value.protocolInfo == "http-get:*:" + TextOf(content.mimeType) + ":*")
  }

  lemma ItemOfContent(db: Db, webRoot: string, id: int)
    requires id in db.objects.rows && db.ContentAt(id).Some? && ParseItem(db, webRoot, id).Some?
    ensures IsItemOf(ParseItem(db, webRoot, id).value, db.objects.rows[id], db.ContentAt(id).value, webRoot)
  {
    hide PrintInt, UrlOf, CombinePath, Audio32, Mime.ExtensionFromType, Mime.TypeFromString, UpnpClass.IsContainer;
  }

  /** The item of an object that holds what a scan stores for an entry. */
  lemma EntryOfItem(db: Db, webRoot: string, id: int, path: Path, entry: FileEntry)
    requires id in db.objects.rows && db.ContentAt(id).Some? && ParseItem(db, webRoot, id).Some?
    requires db.objects.rows[id].name == entry.name
    requires entry.Directory? || entry.RegularFile?
    requires entry.Directory? ==>
               db.objects.rows[id].upnpClass == Container && IsDirectoryContent(db.ContentAt(id).value, path, entry)
    requires entry.RegularFile? ==>
               IsFileContent(db.ContentAt(id).value, path, entry, db.objects.rows[id].upnpClass)
    ensures ShowsEntry(ParseItem(db, webRoot, id).value, entry, webRoot)
  {
    hide ParseItem, IsItemOf, ShowsEntry, IsDirectoryContent, IsFileContent;
    var item, row, content := ParseItem(db, webRoot, id).value, db.objects.rows[id], db.ContentAt(id).value;
    ItemOfContent(db, webRoot, id);
    if entry.Directory? {
      ShowsDirectory(item, row, content, path, entry, webRoot);
    } else {
      ShowsFile(item, row, content, path, entry, webRoot);
    }
  }

  lemma ShowsDirectory(item: UpnpItem, row: ObjectRow, content: Content, path: Path, entry: FileEntry,
                       webRoot: string)
    requires IsItemOf(item, row, content, webRoot) && entry.Directory? && row.name == entry.name
    requires row.upnpClass == Container && IsDirectoryContent(content, path, entry)
    ensures ShowsEntry(item, entry, webRoot)
  {
    if content.thumbnail.Some? {
      CombinedIsJoined(webRoot, content.thumbnail.value);
    }
    hide IsJoined, CombinePath, IsProtocolOf;
  }

  lemma ShowsFile(item: UpnpItem, row: ObjectRow, content: Content, path: Path, entry: FileEntry, webRoot: string)
    requires IsItemOf(item, row, content, webRoot) && entry.RegularFile? && row.name == entry.name
    requires IsFileContent(content, path, entry, row.upnpClass)
    ensures ShowsEntry(item, entry, webRoot)
  {
    if content.thumbnail.Some? {
      CombinedIsJoined(webRoot, content.thumbnail.value);
    }
    ShowsResource(item, row, content, path, entry, webRoot);
    hide IsJoined, CombinePath, Audio32, ShowsFileData;
  }

  lemma ShowsResource(item: UpnpItem, row: ObjectRow, content: Content, path: Path, entry: FileEntry,
                      webRoot: string)
    requires IsItemOf(item, row, content, webRoot) && entry.RegularFile?
    requires IsFileContent(content, path, entry, row.upnpClass)
    ensures item.resource.Some?
    ensures ShowsFileData(item.resource.value, item.upnpClass, entry,
                          if item.upnpClass == AudioItem then entry.tags else None)
  {
    ProtocolTellsClass(content.mimeType.value, row.upnpClass);
    hide CombinePath, IsProtocolOf, Stores;
  }

  lemma CombinedIsJoined(left: string, right: string)
    ensures IsJoined(CombinePath(left, right), left, right)
  {
  }

  lemma ProtocolTellsClass(text: string, upnpClass: UpnpClass)
    requires upnpClass == VideoItem ==> "video/" <= text
    requires upnpClass == ImageItem ==> "image/" <= text
    requires upnpClass == AudioItem ==> "audio/" <= text || text == "application/ogg"
    requires upnpClass == AudioItem || upnpClass == VideoItem || upnpClass == ImageItem
    ensures IsProtocolOf("http-get:*:" + text + ":*", upnpClass)
  {
    assert "http-get:*:" + "video/" == "http-get:*:video/";
    assert "http-get:*:" + "image/" == "http-get:*:image/";
    assert "http-get:*:" + "audio/" == "http-get:*:audio/";
    assert "http-get:*:" + "application/ogg" + ":*" == "http-get:*:application/ogg:*";
    PrefixStays("http-get:*:", "video/", text, ":*");
    PrefixStays("http-get:*:", "image/", text, ":*");
    PrefixStays("http-get:*:", "audio/", text, ":*");
  }

  lemma PrefixStays(before: string, prefix: string, text: string, after: string)
    ensures prefix <= text ==> before + prefix <= before + text + after
  {
  }

  // ----- The file behind a resource -----

  /** The path of the object that a URL names; None where opening it throws. */
  function FileBehind(db: Db, url: string): Option<Path> {
    var id := ParseInt(FileNameWithoutExtension(url));
    if id.None? then None
    else
      match db.ContentAt(id.value)
      case None => None
      case Some(content) => Some(if content.filePath.Some? then content.filePath.value else [])
  }

  class FileRequestHandler {
    const db: MusicDb
    var openedPath: Option<Path>

    /** Opens the file of the object that the URL names. */
    constructor (db: MusicDb, fileUrl: string)
      ensures this.db == db && openedPath == FileBehind(db.View(), fileUrl)
    {
      this.db := db;
      openedPath := None;
      new;
      var id := ParseInt(FileNameWithoutExtension(fileUrl));
      if id.Some? {
        openedPath := db.GetItemPath(id.value);
      }
    }
  }

  lemma UrlNamesObject(webRoot: string, id: int, extension: string)
    requires 0 <= id < 0x8000_0000_0000_0000 && '.' !in extension && '/' !in extension
    ensures ParseInt(FileNameWithoutExtension(UrlOf(webRoot, id, extension))) == Some(id)
  {
    var name := PrintInt(id);
    PrintedDigits(id);
    PrintParse(id);
    assert '/' !in name;
    hide ParseInt, PrintInt, PrintNat, IsDigit;
    var file := name + ['.'] + extension;
    assert UrlOf(webRoot, id, extension) == (webRoot + "Media") + ['/'] + file;
    AfterLastOf(webRoot + "Media", '/', file);
    BeforeLastOf(name, '.', extension);
  }

  /** The resource of every file object leads back to its own path. */
  lemma ResourceLeadsToFile(db: Db, webRoot: string, id: int)
    requires IsSound(db) && id in db.objects.rows && !db.objects.rows[id].upnpClass.IsContainer()
    requires 0 <= id < 0x8000_0000_0000_0000
    ensures var item := ParseItem(db, webRoot, id);
            && item.Some? && item.value.resource.Some?
            && db.ContentAt(id).Some? && db.ContentAt(id).value.filePath.Some?
            && FileBehind(db, item.value.resource.value.url) == db.ContentAt(id).value.filePath
  {
    hide IsSound, Mime.ExtensionFromType, Mime.TypeFromString, UpnpClass.IsContainer, PrintInt, UrlOf, ParseInt,
         FileNameWithoutExtension;
    FilesArePlayable(db, id);
    var t := Mime.TypeFromString(db.ContentAt(id).value.mimeType.value);
    Mime.ExtensionsArePlain(t);
    UrlNamesObject(webRoot, id, Mime.ExtensionFromType(t).value);
  }
}
