# Doozy: a verified model

This project models the hard parts of Doozy, a UPnP media server and renderer, and of the Google Test
amalgamation in its tree, and proves what they promise.  `dafny verify dfyconfig.toml` checks all of it.
Paths below are relative to the root of the Doozy repository.

**Matching, diff and regex (vendored Google Test).**  `BipartiteMatching.dfy` is the augmenting-path search
behind `UnorderedElementsAre`: trying every left node once gives a maximum matching, because each failed search
leaves a set of right nodes that later searches cannot enter.  `EditDistance.dfy` is the dynamic program for
edit scripts, `UnifiedDiff.dfy` the hunk builder, read back by an independent `Patch`.  `SimpleRegex.dfy` is the
small regex engine against the language of a pattern, with validation and the `RE` wrapper; its character classes are
stated by ranges as well.

**MD5.**  `Rfc1321.dfy` states the digest as RFC 1321 (sections 3.1 to 3.5) defines it, `Md5.dfy` is the
streaming class: for every way to cut a message into chunks it returns the digest of the whole.

**The media library.**  `MusicDb.dfy` is the two-table database with its queries, as a class and as a value.
`LibraryIndex.dfy` tells what the rows mean free of row ids: an *index* from things (a fixed container, a
directory or file, an album, a song below its album) to what is known of them.  `LibraryTree.dfy` is the file
tree, the order in which a scan visits it, and what each visit adds to the index.  `LibraryInvariant.dfy` is
what holds of the database after every step of a scan and every completed prune as long as files are not modified
between scans; `LibrarySoundness.dfy` is what holds when they are: references lead somewhere, parents have smaller
ids and can hold their children, albums are unique, files can be offered.  `ScanProgress.dfy` and `ScanSteps.dfy`
follow a scan with its buffer of files, `MetadataRows.dfy` counts the rows of metadata that each path gets,
`Scanner.dfy` is the scanner, which another thread may cancel at any directory entry.
`LibraryPruning.dfy` and `LibraryRenaming.dfy` say what pruning leaves and when two databases differ in row ids
only, `InterruptedPrune.dfy` what is left when a prune fails between two deletions; `MusicLibrary.dfy` draws the
conclusions.  `ContentDirectory.dfy` is browsing in pages, the way from a file
of the tree to the item that shows it, and the way from a resource URL back to the file; `Mime.dfy` holds the mime
types.

**The play queue.**  `PlayQueue.dfy` is the renderer's queue of current and next tracks with its signals, each
locked region one step, against the URI contract of AVTransport:1 (sections 2.4.1 and 2.4.2).

Where a promise turned out false of the code, the code is kept as it is, and the exact condition is proved:

- Edit scripts are called optimal (`test/testframework/gtest/gtest.h:7910`) but need not be: when addition and
  removal tie, the code replaces, even where that costs an edit more.  "aba" and "bab" are two edits apart and
  get three replacements.  A script is minimal exactly when its end can be reached without such a tie.  The same
  condition decides whether it is the cheapest, that is, has the fewest edits and among those the fewest
  replacements; without a tie, additions and removals are preferred, as "ab" and "bc" show.  It never has more edits
  than the longer text has elements, and there are texts of every length for which it has that many where two edits do.
- With a context of 0, `CreateUnifiedDiff` prints nothing; patching works exactly if the context is at least 1
  or the texts are equal.  "a" against "b" is an instance.
- A regex that ends in an escaped dollar sign is not anchored by `RE::Init`; a full match means a match of the
  whole string exactly for all other patterns.
- While the last track of a URI plays, `getCurrentUri` is empty; an empty playlist or `clear` takes the next
  URI away without a signal.  Reading the URIs agrees with the signals exactly in runs without such steps.
- Browse counts in 32 bits: it lists all children at once, and `totalMatches` counts them, exactly if there are
  fewer than 2^32 of them.  The first scan of 2^32 directories is an instance.
- A file that was modified since it was indexed gets a second row of metadata for its path, and one more at every
  later scan that sees it, because the first row stays as it is.  After any other file paths are as unique as before.
- A prune that fails between two deletions can do lasting damage.  What will survive is whole all the time.  But an
  object that waits to be deleted loses its metadata if it shares the row with a deleted one, and no later prune finds
  it then; if it is a file, every page that it is on fails.  A complete prune afterwards does what the whole one would
  have done exactly if no row of metadata is split from its objects.  A song with its copy under an album is an
  instance.

## Model

| member | source | states |
|---|---|---|
| BipartiteMatching.MaxBipartiteMatchState.constructor | test/testframework/gmock-gtest-all.cpp:10966-10970 | initially no node is matched, and the state is consistent |
| BipartiteMatching.MaxBipartiteMatchState.TryAugment | test/testframework/gmock-gtest-all.cpp:11025-11051 | the search ends, keeps both vectors mutually inverse and on edges, unmatches no left node; a failed one changes nothing and marks a set it cannot leave; a successful one stays out of every closed set |
| BipartiteMatching.MaxBipartiteMatchState.Compute | test/testframework/gmock-gtest-all.cpp:10973-11004 | one visit for each left node is enough: the pairs are a matching, no matching has more edges, and the check at the top of the loop never fires |
| BipartiteMatching.FindMaxBipartiteMatching | test/testframework/gmock-gtest-all.cpp:11073-11076 | the pairs form a maximum matching of the graph |
| BipartiteMatching.FindPairing | test/testframework/gmock-gtest-all.cpp:11094-11123 | true if and only if every matcher can be given an element of its own that it accepts |
| BipartiteMatching.ClosedSetBoundsMatching | test/testframework/gmock-gtest-all.cpp:10976-10987 | why: a closed set that holds all neighbours of the unmatched left nodes bounds the size of every matching |
| BipartiteMatching.FullMatchingIsPairing | test/testframework/gmock-gtest-all.cpp:11094-11123 | a matching as large as the right side gives every matcher an element of its own |
| BipartiteMatching.PairingIsFullMatching | test/testframework/gmock-gtest-all.cpp:11094-11123 | the converse: such a choice of elements is a matching as large as the right side |
| EditDistance.CalculateOptimalEdits | test/testframework/gmock-gtest-all.cpp:2476-2531 | the script found in the tables consumes exactly both texts, matches only equal elements, and carrying it out on the left text gives the right one; it has the fewest edits if and only if its end is reached without a tie, and the least cost of all scripts if and only if the end is reached so by the cheapest moves |
| EditDistance.FillRow | test/testframework/gmock-gtest-all.cpp:2495-2518 | a row of both tables is filled as the recurrence with its tie-breaking says |
| EditDistance.ReconstructPath | test/testframework/gmock-gtest-all.cpp:2521-2530 | the walk back through the moves ends at (0,0) and gives the script of the last cell |
| EditDistance.ScriptTurnsLeftIntoRight | test/testframework/gmock-gtest-all.cpp:2476-2531 | carrying out any script that leads through both texts yields the right text |
| EditDistance.CellCostIsScriptCost | test/testframework/gmock-gtest-all.cpp:2494-2528 | the cost in a cell is the cost of the script that the walk back from it finds |
| EditDistance.NoScriptBeatsDistance | test/testframework/gtest/gtest.h:7910-7917 | the reference distance is a lower bound for the edits of any script |
| EditDistance.DistanceIsAttained | test/testframework/gtest/gtest.h:7910-7917 | and some script attains it |
| EditDistance.MinimalExactlyWhenUntied | test/testframework/gmock-gtest-all.cpp:2503-2517 | the script found is minimal if and only if its end can be reached by optimal moves that avoid ties |
| EditDistance.CheapestExactlyWhenUntied | test/testframework/gmock-gtest-all.cpp:2503-2517 | for texts of any length, no script costs less than the one found if and only if its end can be reached by the moves of the cheapest script through mismatched cells without a tie |
| EditDistance.CostOrdersScripts | test/testframework/gtest/gtest.h:7910-7917 | to cost less means to have fewer edits, or as many edits and fewer replacements |
| EditDistance.OnlyAddAndRemoveTie | test/testframework/gmock-gtest-all.cpp:2503-2517 | a tie is a mismatched cell where addition and removal cost the same, and less than replacement; nothing else ever ties |
| EditDistance.CommonLetterIsKept | test/testframework/gmock-gtest-all.cpp:2503-2517 | "ab" becomes "bc" by a removal, a match and an addition, not by two replacements |
| EditDistance.AllPrefixesMinimalExactlyWhenNoTies | test/testframework/gmock-gtest-all.cpp:2503-2517 | the scripts of all prefixes are minimal if and only if no cell has addition and removal tied below replacement |
| EditDistance.ThreeReplacesWhereTwoEditsDo | test/testframework/gmock-gtest-all.cpp:2512-2517 | "aba" and "bab" get three replacements, which is not minimal |
| EditDistance.NeverMoreThanLonger | test/testframework/gmock-gtest-all.cpp:2503-2517 | the script never has more edits than the longer text has elements |
| EditDistance.CrossedTextsAreReplaced | test/testframework/gmock-gtest-all.cpp:2512-2517 | if each element differs from the one opposite and equals the neighbours of that one, every element is replaced, though some script has at most two edits |
| EditDistance.AlternatingIsCrossed | test/testframework/gmock-gtest-all.cpp:2512-2517 | there are such texts of every length |
| EditDistance.InternalStrings.GetId | test/testframework/gmock-gtest-all.cpp:2538-2543 | equal strings get equal numbers, different strings different ones |
| EditDistance.CalculateOptimalEditsOfStrings | test/testframework/gmock-gtest-all.cpp:2552-2566 | numbering the strings first makes no difference to the script |
| EditDistance.PathKnowsOnlyEquality | test/testframework/gmock-gtest-all.cpp:2476-2531 | texts that are equal in the same places get the same script |
| UnifiedDiff.Hunk.PushLine | test/testframework/gmock-gtest-all.cpp:2583-2599 | what the hunk says of the old and the new text grows by the line, the counters stay right, removals stay before additions |
| UnifiedDiff.Hunk.FlushEdits | test/testframework/gmock-gtest-all.cpp:2614-2617 | pending removals and then additions move to the hunk; neither text changes |
| UnifiedDiff.Hunk.PrintTo | test/testframework/gmock-gtest-all.cpp:2601-2635 | the header names a side if and only if it has changes, with its start line and the number of lines the hunk holds of it |
| UnifiedDiff.NextEditIsFar | test/testframework/gmock-gtest-all.cpp:2677-2685 | true if and only if no change comes within the context |
| UnifiedDiff.FillHunk | test/testframework/gmock-gtest-all.cpp:2673-2701 | the hunk takes exactly the lines between two positions of both texts, and ends in a full context or at the end |
| UnifiedDiff.CreateUnifiedDiff | test/testframework/gmock-gtest-all.cpp:2644-2711 | a reader who applies the hunks in order, refusing overlaps, wrong lines and wrong headers, gets the right text if and only if the context is positive or the texts are equal; with a context, the lines marked '-' are exactly the elements that the script of CalculateOptimalEdits removes or replaces, those marked '+' the ones it adds or puts in place, all others its matches; their number is the script's edits plus its replacements; every hunk has a change, and there is none if and only if the context is 0 or the texts are equal; removals are grouped before additions; each hunk has its context; two changes share a hunk if and only if their contexts overlap |
| UnifiedDiff.HunksKeepApart | test/testframework/gmock-gtest-all.cpp:2677-2685 | between the changes of neighbouring hunks there are at least twice as many unchanged lines as the context asks for |
| UnifiedDiff.ChangeLostWithoutContext | test/testframework/gmock-gtest-all.cpp:2676-2706 | without context the change of "a" to "b" is lost |
| UnifiedDiff.HunkApplies | test/testframework/gmock-gtest-all.cpp:2666-2708 | a printed hunk takes a reader from the lines skipped before it to the lines after it |
| SimpleRegex.ValidateRegex | test/testframework/gmock-gtest-all.cpp:9230-9284 | accepts exactly the texts of patterns |
| SimpleRegex.PatternOfText | test/testframework/gmock-gtest-all.cpp:9228-9284 | a text is the text of at most one pattern |
| SimpleRegex.PunctuationExactly | test/testframework/gmock-gtest-all.cpp:9184-9186 | punctuation is every visible ASCII character that is no letter or digit |
| SimpleRegex.WhiteSpaceExactly | test/testframework/gmock-gtest-all.cpp:9188 | white space is the blank and the control characters 9 to 13 |
| SimpleRegex.PlainAtoms | test/testframework/gmock-gtest-all.cpp:9219 | a dot matches everything but the newline, any other plain character itself |
| SimpleRegex.EscapedAtoms | test/testframework/gmock-gtest-all.cpp:9201-9217 | the small letters are classes by their ranges or single control characters, D, S and W their complements |
| SimpleRegex.EscapedPunctuation | test/testframework/gmock-gtest-all.cpp:9216 | escaped punctuation matches itself |
| SimpleRegex.ValidEscapesExactly | test/testframework/gmock-gtest-all.cpp:9195-9217 | an escape is valid if and only if it can match something |
| SimpleRegex.EveryCharacterCanBeWritten | test/testframework/gmock-gtest-all.cpp:9230-9284 | every character has a form, plain or escaped, that a valid regex may contain |
| SimpleRegex.MatchRegexAtHead | test/testframework/gmock-gtest-all.cpp:9320-9346 | true if and only if some prefix of the string (all of it before a final dollar) is in the language; ends because the regex gets shorter |
| SimpleRegex.MatchRepetitionAndRegexAtHead | test/testframework/gmock-gtest-all.cpp:9293-9315 | the same for a regex that starts with a repetition, though it stops at the first count that works |
| SimpleRegex.MatchRegexAnywhere | test/testframework/gmock-gtest-all.cpp:9356-9369 | true if and only if a match starts at some position, or at the first one after a caret |
| SimpleRegex.HeadThenTail | test/testframework/gmock-gtest-all.cpp:9286-9346 | a pattern matches a prefix if and only if its first item can take some characters and the rest matches a prefix of what remains |
| SimpleRegex.RE.constructor | test/testframework/gmock-gtest-all.cpp:9390-9421 | valid exactly for the texts of patterns; keeps the pattern and its anchored form |
| SimpleRegex.RE.FullMatch | test/testframework/gmock-gtest-all.cpp:9379-9381 | matches exactly the words of the language, or, after a final escaped dollar sign, what starts with one |
| SimpleRegex.RE.PartialMatch | test/testframework/gmock-gtest-all.cpp:9385-9387 | matches exactly the strings that contain a match |
| SimpleRegex.FullPatternIsText | test/testframework/gmock-gtest-all.cpp:9402-9420 | the wrapped text is the text of the pattern anchored at both ends, at one end after a final escaped dollar sign |
| SimpleRegex.FullMatchIsWholeMatch | test/testframework/gmock-gtest-all.cpp:9378-9421 | a full match is a match of the whole string, for all strings, if and only if the pattern does not end in an escaped dollar sign |
| Md5Streaming.MacrosAreRfcFunctions | server/library/md5.cpp:19-23 | F, G, H, H2 and I are the functions of RFC 1321, section 3.4, on all words |
| Md5Streaming.SetIsDecode | server/library/md5.cpp:41-55 | a word put together by shifts and or is the little-endian word of RFC 1321 |
| Md5Streaming.ShiftOrIsRotate | server/library/md5.cpp:28-31 | the two shifted halves are a 32-bit rotation, for every shift in use |
| Md5Streaming.StepIsOperation | server/library/md5.cpp:28-31 | a step computes the register that one operation of RFC 1321, section 3.4, changes |
| Md5Streaming.Round1 | server/library/md5.cpp:180-196 | the sixteen steps are the sixteen operations of round 1 |
| Md5Streaming.Round2 | server/library/md5.cpp:198-214 | the same for round 2 |
| Md5Streaming.Round3 | server/library/md5.cpp:216-232 | the same for round 3, with both forms of H |
| Md5Streaming.Round4 | server/library/md5.cpp:234-250 | the same for round 4 |
| Md5Streaming.Md5.Body | server/library/md5.cpp:163-266 | one pass over n blocks is n transformations, for every positive number of blocks |
| Md5Streaming.Md5.Count | server/library/md5.cpp:69-72 | the two counters hold the number of bytes modulo 2^61, carry included |
| Md5Streaming.CountAdds | server/library/md5.cpp:69-72 | the comparison with the old value detects the carry for every size |
| Md5Streaming.Md5.Update | server/library/md5.cpp:67-99 | the registers stay the chain over all whole blocks, the buffer the bytes left over, the counters the length |
| Md5Streaming.Md5.PadTail | server/library/md5.cpp:103-115 | one or two blocks of padding, every index in range |
| Md5Streaming.Md5.WriteLength | server/library/md5.cpp:117-125 | the last eight bytes are the length in bits modulo 2^64, little endian |
| Md5Streaming.Md5.Finalize | server/library/md5.cpp:101-145 | the digest of all bytes so far, as RFC 1321 defines it, each register written low-order byte first |
| Md5Streaming.PaddingFills | server/library/md5.cpp:103-125 | what was written behind the left-over bytes is the padding of RFC 1321, section 3.1, whatever bytes the length has |
| Md5Streaming.ChainInPieces | server/library/md5.cpp:103-127 | chaining the one or two last blocks after the whole blocks is chaining the padded message |
| Rfc1321.PaddedLength | server/library/md5.cpp:101-127 | the padded message is a whole number of blocks, so no byte is left out of the digest |
| Rfc1321.EncodeWordIsDecoded | server/library/md5.cpp:129-144 | the four bytes written for a register are the low-order byte first: read as a word of a block they are the register |
| Rfc1321.EncodedWords | server/library/md5.cpp:129-144 | the k-th word of the 16 bytes of a digest is the k-th register |
| Rfc1321.InitialBytes | server/library/md5.cpp:57-65 | the initial registers are the bytes 01 23 45 67 89 ab cd ef fe dc ba 98 76 54 32 10 of RFC 1321, section 3.3 |
| Rfc1321.PaddingBytes | server/library/md5.cpp:103-125 | the padding is a byte 80, zeros, and eight bytes of length |
| Rfc1321.LengthIsRead | server/library/md5.cpp:117-125 | the eight bytes of the length, each with its weight, add up to the length modulo 2^64 |
| Md5Streaming.ChainConcat | server/library/md5.cpp:173-258 | chaining over whole blocks can be cut anywhere between blocks |
| Md5Streaming.DigestOfChunks | server/library/md5.cpp:67-145 | for every message and every way to cut it into chunks the digest is that of the whole |
| Md5Streaming.ToString | server/library/md5.cpp:147-157 | two lower-case hexadecimal digits for each byte, which can be read back |
| Md5Streaming.CreateMd5String | server/library/md5.cpp:268-276 | the hexadecimal form of the digest |
| Mime.StringRoundTrip | server/mimetypes.cpp:94-183 | every type that can be printed is read back from its mime string and has an extension; exactly two types cannot be printed |
| Mime.PlayableFilesPrint | server/mimetypes.cpp:29-92 | a file whose group is not Other has a type that can be printed |
| Mime.TextTellsGroup | server/mimetypes.cpp:29-183 | the mime string of a file starts with "video/" or "image/" if and only if its group is Video or Image, and with "audio/" or is "application/ogg" if and only if it is Audio |
| Mime.ExtensionNamesTypeExactly | server/mimetypes.cpp:62-152 | a file whose extension is that of a type, in small letters or capitals, is of this type, for all types that have an extension but two |
| MusicDatabase.MusicDb.AddItem | server/library/musicdb.cpp:253-256 | a new metadata row and an object that refers to it and says what the item says; the object's id is returned |
| MusicDatabase.MusicDb.AddItemWithId | server/library/musicdb.cpp:229-241 | the object gets the id asked for, if it is free; the metadata row is added in any case |
| MusicDatabase.MusicDb.AddItems | server/library/musicdb.cpp:270-284 | for each file one metadata row that all its objects share |
| MusicDatabase.MusicDb.ItemExists | server/library/musicdb.cpp:341-353 | finds an object with the path if and only if there is one |
| MusicDatabase.MusicDb.AlbumExists | server/library/musicdb.cpp:355-382 | finds an album of this name and artist if and only if there is one; an empty artist is looked up as NULL |
| MusicDatabase.MusicDb.GetItemStatus | server/library/musicdb.cpp:384-395 | DoesntExist if and only if no metadata has the path; else by the modification time of such a row |
| MusicDatabase.MusicDb.GetItemPath | server/library/musicdb.cpp:397-408 | a path if and only if the object refers to metadata with it, and failure for an object without metadata |
| MusicDatabase.MusicDb.GetItems | server/library/musicdb.cpp:479-495 | at most as many as asked for, only children of the container, in ascending order: those from the offset on |
| MusicDatabase.MusicDb.RemoveNonExistingFiles | server/library/musicdb.cpp:513-534 | if no deletion fails, exactly the objects without a path or with an existing path are left, unchanged, and exactly the metadata no removed object refers to; if one fails, the objects at the front of the list and their metadata are deleted, but for the metadata of the last one perhaps |
| MusicDatabase.DeletingGoneFilesPrunes | server/library/musicdb.cpp:528-533 | deleting the collected rows one by one does that, though several objects name the same metadata row |
| LibraryIndex.ItemAddsEntry | server/library/musicdb.cpp:253-256 | an object with new metadata adds exactly its own entry to the index, and keeps references, identities and paths in order |
| LibraryIndex.FileAddsEntries | server/library/musicdb.cpp:270-284 | the objects of a file add exactly their entries, and share one row |
| LibraryIndex.FilesAddEntries | server/library/musicdb.cpp:270-284 | so does a buffer of files with different paths |
| LibraryTree.VisitsAreTheTree | server/library/scanner.cpp:134-185 | the traversal visits exactly the entries of the tree, each under its path and below the object of its directory |
| LibraryTree.NamesMakePathsDistinct | server/library/scanner.cpp:138-185 | different names in every directory make all visited paths different |
| LibraryTree.ResumedScan | server/library/scanner.cpp:134-191 | a traversal cut short anywhere and then repeated in full gives the index of one full traversal |
| LibraryTree.FullScanDescribesTree | server/library/scanner.cpp:134-317 | from the bare layout, a full traversal gives an index with exactly the layout and what the entries call for, an album being described by its first song |
| LibraryTree.FoldBeside | server/library/scanner.cpp:136-190 | visits neither see nor disturb files that wait in a buffer |
| LibraryTree.ScanStaysUnmodified | server/library/scanner.cpp:208-214 | what was unmodified before part of a scan is so after it |
| LibraryInvariant.FileKeepsShape | server/library/scanner.cpp:216-316 | a file below its directory, with its copy below its album, keeps the shape of the index |
| LibraryInvariant.NewPathsAreNotIndexed | server/library/musicdb.cpp:384-392 | no metadata has a path if and only if the index has no node for it |
| LibraryInvariant.PathsFound | server/library/musicdb.cpp:341-353 | the path query finds something if and only if the path is indexed, and for a directory it finds the directory's own object |
| LibraryInvariant.AlbumsFound | server/library/musicdb.cpp:355-382 | the album query finds something if and only if the album is indexed |
| ScanProgress.FlushAddsPending | server/library/scanner.cpp:187-190 | flushing the buffer adds exactly what was pending, and keeps the library in shape |
| ScanProgress.ProgressInDatabase | server/library/scanner.cpp:146-171 | while files wait, database and buffer together stay the index of what was seen |
| ScanProgress.ProgressInBuffer | server/library/scanner.cpp:314-316 | so they do when a file goes to the buffer |
| ScanSteps.DirectoryTakenIn | server/library/scanner.cpp:150-168 | a new directory adds its container below its parent |
| ScanSteps.AlbumTakenIn | server/library/scanner.cpp:273-292 | a new album is added below "Albums", with the metadata of the song |
| ScanSteps.StatusTells | server/library/musicdb.cpp:384-395 | in a library the status is DoesntExist if the path is not indexed, else NeedsUpdate or UpToDate by the time it was indexed with |
| MetadataRows.FirstRowStays | server/library/musicdb.cpp:384-395 | the first row of a path, which decides its status, stays the first one when rows are added |
| MetadataRows.BringsAsBefore | server/library/scanner.cpp:146-216 | in the middle of a scan, whether an entry that was not seen yet brings a row is as it was at the start |
| MetadataRows.RowsFollowOn | server/library/scanner.cpp:146-172 | rows in the database and files in the buffer together keep the count of what was seen while a directory is scanned |
| MetadataRows.RowsFollowFile | server/library/scanner.cpp:198-317 | so they do when a file goes to the buffer, or is up to date |
| MetadataRows.RowsFollowFlush | server/library/scanner.cpp:187-190 | so they do when the buffer is flushed |
| MetadataRows.PruneKeepsRows | server/library/musicdb.cpp:513-534 | a prune keeps all rows of a path that exists, and its first row |
| MetadataRows.RowsPileUp | server/library/scanner.cpp:208-216 | over any number of scans, whole or in part, each with a prune or without, that all see a file as it is: it gets one more row at each of them if it was modified since it was indexed, and none if not, and its status never changes |
| Scanning.Scanner.ObjectOfDirectory | server/library/scanner.cpp:146-171 | on any sound database: it stays sound, the path gets a row of metadata if and only if no object had it, and the id is that of an object that can hold the directory's entries; in a library it is the directory's container, which is in the index |
| Scanning.Scanner.ObjectOfAlbum | server/library/scanner.cpp:272-292 | on any sound database: the id is that of the one album with this name and artist; in a library the album is in the index then |
| Scanning.Scanner.OnFile | server/library/scanner.cpp:198-317 | on any sound database: a file goes to the buffer, with the metadata of its tags, if and only if its kind is indexed and its status is not UpToDate; in a library that was not modified, database and buffer stay the index of what was seen |
| Scanning.Scanner.OnDirectory | server/library/scanner.cpp:146-172 | its object and then its entries: a prefix of that part of the traversal, all of it if not cancelled; each path gets a row for each entry that brings one |
| Scanning.Scanner.Scan | server/library/scanner.cpp:134-191 | wherever it is cancelled, it has seen a prefix of the traversal, rows were only added, the database is sound, and each path got one row of metadata for each entry seen that is a directory without an object or a file that was new or modified; if nothing was modified, the database holds exactly the index of that prefix and nothing is left in the buffer |
| Scanning.Scanner.CreateInitialLayout | server/library/scanner.cpp:93-132 | the four fixed containers, and a library |
| Scanning.Scanner.PerformScan | server/library/scanner.cpp:74-91 | the same for a whole scan of any sound or empty database: the rows of each path, and the index of the old database or of the layout, plus what was seen |
| LibrarySoundness.LibraryIsSound | server/library/scanner.cpp:93-191 | a library is sound |
| LibrarySoundness.ItemKeepsSound | server/library/musicdb.cpp:253-256 | an object below a parent that can hold it, and no second album of its name and artist, keeps the database sound |
| LibrarySoundness.FilesKeepSound | server/library/musicdb.cpp:270-284 | so does a buffer of files, also of paths that are there already |
| LibrarySoundness.PruningKeepsSound | server/library/musicdb.cpp:513-534 | so does pruning, if a directory exists whenever something in it does |
| LibraryPruning.SurvivorsKeepMetadata | server/library/musicdb.cpp:528-533 | in any database an object left by a prune has the content it had |
| LibraryPruning.PruningKeepsLibrary | server/library/musicdb.cpp:513-534 | if a directory exists whenever something in it does, pruning keeps the library in shape and takes from the index exactly what has a path that is gone |
| LibraryPruning.PrunedFold | server/library/filesystemmusiclibrary.cpp:113-118 | pruning before or after visits of existing entries gives the same index |
| LibraryPruning.ScanAndPruneMatchTree | server/library/filesystemmusiclibrary.cpp:113-118 | after a traversal and a prune exactly the existing paths are indexed that were indexed before or that an entry calls for, whatever the index held |
| LibraryPruning.ParentsLeadToRoot | server/library/scanner.cpp:93-191 | following parents leads to object 0, through existing objects with ever smaller ids |
| LibraryPruning.AlbumsAreUnique | server/library/scanner.cpp:268-292 | there is at most one album object for a name and album artist |
| LibraryPruning.SongsAreListed | server/library/scanner.cpp:294-316 | a song that names an album has a second object below that album, which shares its metadata row |
| InterruptedPrune.CutIsPart | server/library/musicdb.cpp:528-533 | after a cut only rows of gone objects are missing, and a row of metadata only after one of its objects |
| InterruptedPrune.SurvivorsAreWhole | server/library/musicdb.cpp:528-533 | at every cut, what will survive has its row, its metadata and its parent, which will survive too |
| InterruptedPrune.CutIsSoundExactly | server/library/musicdb.cpp:528-533 | the database is sound at the cut if and only if everything that waits has its metadata and its parent |
| InterruptedPrune.PruneAfterCutExactly | server/library/musicdb.cpp:513-534 | a complete prune after the cut does what the whole prune would have done if and only if no waiting object has lost its metadata and no row is left whose objects are all deleted |
| InterruptedPrune.StrandedExactly | server/library/musicdb.cpp:528-533 | after whole deletions, a waiting object has lost its metadata if and only if it shared the row with a deleted one |
| InterruptedPrune.StrandedStays | server/library/musicdb.cpp:517-526 | no prune, whatever exists then, removes an object without metadata |
| InterruptedPrune.SongIsStranded | server/library/scanner.cpp:294-316 | in every library, the prune of a song that names an album can be cut so that the song or its copy is left without metadata |
| LibraryRenaming.SameIndexSameLibrary | server/library/musicdb.cpp:243-294 | databases with the same index are equal up to a renaming of ids that respects parents, contents and sharing |
| LibraryRenaming.SameIndexSameTables | server/library/musicdb.cpp:243-294 | if rows were only added and the index is the same, both tables are the same |
| MusicLibraries.FilesystemMusicLibrary.ScannerThread | server/library/filesystemmusiclibrary.cpp:103-130 | after a scan, cancelled or not, and the prune that follows, the database is sound, and each existing path has a row more for each entry that brought one; if nothing was modified it is a library with the index of what was seen, pruned; a prune that fails leaves a cut of a sound database |
| MusicLibraries.FilesystemMusicLibrary.Scan | server/library/filesystemmusiclibrary.cpp:83-96 | the same for the whole request, on a database that may come from an earlier run and starts empty if asked to or if the directory is another; a completed request in which no deletion fails leaves exactly the existing paths that were listed or are in the tree |
| MusicLibraries.LibraryFollowsTree | server/library/filesystemmusiclibrary.cpp:113-118 | why: after a complete scan and a prune an object with a path exists if and only if the path exists and was listed before or is that of a directory or playable file of the tree |
| MusicLibraries.RoundsKeepOutcome | server/library/filesystemmusiclibrary.cpp:103-119 | any number of cancelled scans, each pruned or not, changes nothing about what a complete scan and a prune will give |
| MusicLibraries.ResumedScanMatchesWhole | server/library/scanner.cpp:74-191 | after any number of cancelled scans, with or without prunes in between, a complete scan and a prune give, up to row ids, the database of one uninterrupted scan and a prune: names, parents, albums, contents, shared rows |
| MusicLibraries.ScanIsRound | server/library/scanner.cpp:74-91 | where nothing is missing, a scan alone is a scan and a prune, so the same holds for scans without prunes |
| MusicLibraries.RescanFindsUnmodified | server/library/scanner.cpp:208-214 | a repeated scan finds the tree unmodified |
| MusicLibraries.RescanChangesNothing | server/library/scanner.cpp:134-215 | scanning an unchanged tree again, even in part, changes neither table |
| MusicLibraries.FullScanIndexesTree | server/library/scanner.cpp:74-317 | a full scan into an empty database indexes exactly the tree |
| MusicLibraries.EntryHasObject | server/library/scanner.cpp:134-317 | every directory and every file of a playable kind has an object, of the right class, below the object of its directory; its content is that of the entry, column by column: title, artist, album, album artist, genre, cover and audio properties of a song's tags, size, time, and a mime type that starts with "video/", "image/" or "audio/" (or is Ogg) exactly as the class says |
| MusicLibraries.SongHasCopy | server/library/scanner.cpp:294-316 | a song that names an album has a second object with the same content, below an album with that name and artist |
| MusicLibraries.AlbumHasContent | server/library/scanner.cpp:268-292 | every album is below "Albums" and has the name, artist, genre and cover that a song of the tree gives |
| MusicLibraries.FixedContainersNamed | server/library/scanner.cpp:93-132 | names, classes, parents and titles of the four fixed containers of any library |
| MusicLibraries.ObjectHasEntry | server/library/scanner.cpp:134-317 | every object with a path stands for a directory or playable file of the tree |
| MusicLibraries.PathsStayUniqueExactly | server/library/scanner.cpp:208-216 | what onFile adds for a status keeps one row of metadata for each path if and only if it is not the case that the path is indexed with an earlier modification time; in that case the status stays NeedsUpdate |
| MusicLibraries.ModifiedSongIsIndexedTwice | server/library/scanner.cpp:208-216 | a song indexed at time 1 and modified at time 2 gets two rows |
| MusicLibraries.DeletedSongIsStranded | server/library/musicdb.cpp:528-533 | a library of one song with an album, whose prune can be cut so that no later one completes it |
| ContentDirectory.PrintParse | server/library/musicdb.cpp:416 | a printed id is parsed back, within 64 bits |
| ContentDirectory.MediaServer.GetItems | server/library/musicdb.cpp:479-495 | a page of the children in id order, each joined with its metadata; fails if one of them cannot be offered |
| ContentDirectory.MediaServer.SetChildCounts | server/mediaserverdevice.cpp:214-221 | every container gets the number of its own children, found by the id it prints |
| ContentDirectory.MediaServer.Browse | server/mediaserverdevice.cpp:191-224 | page, total and number returned for both flags, and when it fails |
| ContentDirectory.ChildCountIsTotal | server/mediaserverdevice.cpp:214-221 | the child count of every container in an answer is the totalMatches that Browse answers for its own id; nothing else has one |
| ContentDirectory.MetadataShown | server/mediaserverdevice.cpp:204-211 | for every object of a sound database BrowseMetadata gives one item, counted as one |
| ContentDirectory.MetadataIsListed | server/mediaserverdevice.cpp:197-211 | it is the item that every page under the object's parent shows in its place |
| ContentDirectory.EveryObjectIsListed | server/library/musicdb.cpp:479-495 | every object but the root heads some page under its parent, if there are fewer than 2^32 children |
| ContentDirectory.ListedItemNamesParent | server/library/musicdb.cpp:479-495 | every item of a page names the container that was asked for as its parent |
| ContentDirectory.TitleOfItem | server/library/musicdb.cpp:416-430 | an item has the title of its metadata, and its name if there is none |
| ContentDirectory.PrintedIds | server/library/musicdb.cpp:416-425 | the ids of an item are read back as the object's id, its parent and its reference, if it has one |
| ContentDirectory.ScannedEntryIsShown | server/library/musicdb.cpp:411-461 | after a full scan every directory and playable file is shown by an item with the title, artist, genre and cover of its tags or its name, its class, protocol, size and audio properties, and a URL that leads back to its path |
| ContentDirectory.ParsesNumber | server/library/filesystemmusiclibrary.cpp:61-76 | an id is read from any text of white space, a sign, digits and something else, if it fits 64 bits |
| ContentDirectory.SoundItemsParse | server/library/musicdb.cpp:411-461 | no object of a sound database makes parsing throw |
| ContentDirectory.PageShows | server/mediaserverdevice.cpp:197-203 | a page shows the children from its offset on, in order, and says how many |
| ContentDirectory.PageFailsExactly | server/library/musicdb.cpp:479-495 | in any database, Browse fails for a page if and only if something on it cannot be offered |
| ContentDirectory.StrandedBreaksPage | server/library/musicdb.cpp:434-447 | a file that a cut prune left without metadata breaks every page that it is on |
| ContentDirectory.PagesMakeListing | server/mediaserverdevice.cpp:197-203 | in any sound database, pages of any size one after the other are the listing of count 0, and the total is the sum of the numbers returned |
| ContentDirectory.ListingIsWholeExactly | server/mediaserverdevice.cpp:197-203 | for every container of a sound database Browse with a count of 0 succeeds, and lists all children, and counts them in totalMatches, each if and only if there are fewer than 2^32 |
| ContentDirectory.WideIsScanned | server/library/scanner.cpp:146-168 | adding n containers to the layout one by one makes the database that a complete scan of n directories makes of it |
| ContentDirectory.BrowseMissesChildren | server/library/musicdb.cpp:487-488 | after the first scan of n directories totalMatches is n modulo 2^32, and at most 2^32 - 1 are listed; so of 2^32 one is not listed, and the total is 0 |
| ContentDirectory.UrlNamesObject | server/filerequesthandler.cpp:29-30 | the id can be read back from the URL that was built for it |
| ContentDirectory.FileRequestHandler.constructor | server/filerequesthandler.cpp:26-33 | opens the path of the object that the URL names, and fails if there is none |
| ContentDirectory.ResourceLeadsToFile | server/library/musicdb.cpp:434-447 | the URL of every file object of a sound database leads back to its own path |
| PlayQueues.PlayQueue.SetCurrentUri | renderer/playqueue.cpp:233-270 | replaces the current tracks only, and announces the URI |
| PlayQueues.PlayQueue.SetNextUri | renderer/playqueue.cpp:272-294 | replaces the next tracks only, and announces the URI |
| PlayQueues.PlayQueue.DequeueNextTrack | renderer/playqueue.cpp:319-352 | hands out the first track of current and next tracks, with the hand-over and its two signals at the border |
| PlayQueues.PlayQueue.Clear | renderer/playqueue.cpp:308-317 | empties both deques and announces no URI |
| PlayQueues.DequesMatchAnnouncements | renderer/playqueue.cpp:233-352 | in every run all tracks of a deque belong to the URI last announced for it |
| PlayQueues.HandedOutTrackIsAnnounced | renderer/playqueue.cpp:319-352 | in every run a track that is handed out belongs to the URI announced as current |
| PlayQueues.CurrentUriExactly | renderer/playqueue.cpp:296-300 | the current URI reads as announced if and only if tracks of it wait or nothing is announced |
| PlayQueues.CurrentUriMirroredExactly | renderer/playqueue.cpp:233-352 | it always does so in a run if and only if no step hands out the last waiting track of a URI, sets a playlist without entries or clears a waiting URI |
| PlayQueues.PlayingLastTrackReadsEmpty | renderer/playqueue.cpp:296-306 | a queue of one track that plays, and a next playlist without entries, read as empty though announced |
| PlayQueues.NextUriMirroredExactly | renderer/playqueue.cpp:272-317 | replaying the signals of a run always gives the next URI if and only if no step drops it silently |
| PlayQueues.DrainsInOrder | renderer/playqueue.cpp:319-352 | draining hands out current and then next tracks, each once and in order, then nothing, with one hand-over signalled in between |
| PlayQueues.PlaysCurrentAsListed | renderer/playqueue.cpp:233-270 | draining after setting a current URI first hands out the entries of its playlist, in order |
| PlayQueues.PlaysAsListed | renderer/playqueue.cpp:233-294 | and after that the entries of the playlist set as next, in order, and nothing else |
| PlayQueues.HandedOverAtMostOnce | renderer/playqueue.cpp:330-334 | in every run there are no more hand-overs than next URIs with tracks were set |

## Left out

- Scanning.Scanner.Scan: of the database after the scan of a tree with modified files, or of one where a file became a
  directory, soundness and the number of rows of each path are stated, not the index.
- BipartiteMatching.FindPairing: the explanation written to the listener.
- UnifiedDiff.Hunk.PrintTo: the characters of the header; it is a value with start lines and lengths.
- Md5Streaming.SetIsDecode: the form for x86, which loads a word from memory, is little-endian decoding by definition.
- ContentDirectory.MediaServer.GetItems: the constant storage size of containers, and types of property values.
- EditDistance.CalculateOptimalEdits: costs are exact multiples of 0.00001, not rounded doubles; the statements
  on minimality need one text of fewer than 100000 elements.
- UnifiedDiff.CreateUnifiedDiff: hunks are values; the printed characters are not modelled.
- MusicDatabase.MusicDb.RemoveNonExistingFiles: a failure before the first deletion, which changes nothing.
- MusicDatabase.MusicDb.AddItem: a parent of 0 would be stored as NULL; the scanner adds nothing below object 0 so.
- MusicDatabase.MusicDb.AddItems: the transaction is one step.
- MusicLibraries.FilesystemMusicLibrary.ScannerThread: a statement of the database that fails during the scan.
- MusicLibraries.FilesystemMusicLibrary.Scan: the scanner runs to its end within the call; races of the scanner
  thread with other users of the database file, and a cancel that arrives before the scan has started, are left out.
- ContentDirectory.MediaServer.Browse: the unused filter and sort arguments.
- Tags, cover images, modification times and the existence of files are data of the tree or parameters;
  directories can be read without errors and list different names.
- `MusicDb::updateItem`, the `addItem` without metadata and the search functions, which the scanner does not use.
- SQLite itself: selects return rows in id order, an insert takes the largest id plus one, empty text is NULL;
  the columns for date and disc or track number are never written.
- String helpers (file names and extensions, lower case, joined paths) come from a utility library that is not
  part of this model; they are modelled by what their names say.
- C strings are sequences without the NUL character; null pointers, the POSIX variant of `RE` and the messages
  about invalid regexes or failed pairings.
- `MatchMatrix` is a sequence of rows instead of one flat vector, and its generators are left out.
- Reading, seeking and closing in `FileRequestHandler`.
- Metadata, cover art and playlist download in the play queue: the entries of a playlist are a parameter of the step.
- The UPnP device, event and action plumbing, the control point, the web front end, CEC, settings, signal
  handling, the remote library (`upnpmusiclibrary.cpp`), and the rest of Google Test and Google Mock.
