# Howler, modelled in Dafny

Howler is a desktop music player. It imports a directory of audio files into a library database, reads and writes player ratings, play counts and dates in the files' tags, plays a queue of tracks, and shows the library in sortable, filterable track lists beside a source tree of artists and albums. This project models the sequential logic of that core as immutable datatypes and pure functions, and proves what each operation promises:

- **Tag codecs** (`Id3v2Tagger`, `OggTagger`, `TagLibExtensions`). These cover:
  - the rating scales of Banshee, MediaMonkey, Windows Media Player and Howler on the one-byte POPM rating of section 4.17 of the ID3v2.4.0 native frames document;
  - rewriting lists of POPM frames and Vorbis comment fields;
  - the priority rules that pick the authoritative frame or field;
  - the `yyyy` … `yyyy-MM-ddTHH:mm:ss` timestamps of section 4 of the ID3v2.4.0 structure document.

  A POPM tag is a sequence of (user, rating, play count) frames, and a Xiph comment is a sequence of named fields in iteration order.
- **Digests and helpers** (`Extensions`). Lower-case hex encoding of MD5 digests, `ToHashSet` and enum descriptions.
- **Library entities** (`Entities`). Albums with their artist-id hash, artists and genres, with their bidirectional links.
- **Library import** (`MediaLibrary` for the current NHibernate import, `LegacyCollection` for the earlier Entity Framework one). Each covers:
  - the extension filter;
  - the change key of a file;
  - the add, update or skip decision;
  - the upserts of artists, genres and albums;
  - the reconciliation of a track's artists and genres.

  The library is a set of tables whose ids are positions. Its uniqueness constraints are a state invariant, `Valid`.
- **Playback queue** (`AudioPlayer`). The playlist, index and URI, with an abstract engine state. Every transition returns the `TrackChanged` event it raises and the exception it throws, if any.
- **Track list controllers** (`TrackView`, `BaseTrackList`, `Durations`, `DurationColumn`, `TrackList`, `Tracks`, `TrackListStore`, `RowActivation`, `SourceTree`). These cover:
  - the comparator chains and column comparers;
  - the column texts, including the duration text;
  - column widths and their persistence;
  - the list store's insertion and change signalling;
  - row activation;
  - the source-tree filters.
- **Shared primitives** (`Wrappers`, `Numeric`, `Text`, `Sorting`, `Dates`, `TrackProperties`). These are `Option`/`Result`, the .NET integer casts, ASCII case folding, decimal formatting and parsing, insertion sort, and `DateTime` fields down to the 100-ns tick.

Several lemmas state what the code does where it evidently differs from what it means to do. They are stated about the code as written, which the model follows:

| lemma | what the code does |
|---|---|
| `Id3v2Tagger.MediaMonkeyRoundTrip` | ratings 1 to 25 read back 3 higher |
| `Id3v2Tagger.BansheeByteOutOfRange` | ratings above 25 are stored as unrated |
| `OggTagger.PlayCountLostWithoutHowlerRating` | play counts are ignored before a Howler rating field |
| `Tracks.NumbersIgnored` | the comparator compares a track number with itself |
| `TrackListStore.InsertAllReverses` | inserted tracks end up reversed |
| `Entities.AddAlbumLeavesHashStale` | an album's hash goes stale |
| `AudioPlayer.ClearQueueLeavesIndexDangling` | clearing the queue leaves the index dangling |
| `LegacyCollection.StoredGenreAddedAgain` | a stored genre is added again |

## Model

| member | source | states |
|---|---|---|
| Numeric.ToByte | Howler/Core/Tagging/ID3v2Tagger.cs:119-132 | the unchecked `(byte)` cast keeps a value in 0..255 and otherwise wraps modulo 256 |
| Numeric.ToUInt64 | Howler/Core/Tagging/ID3v2Tagger.cs:194-203 | the unchecked `(ulong)` cast keeps a non-negative 64-bit value and wraps a negative one modulo 2^64 |
| Numeric.ToInt32 | Howler/Core/Tagging/ID3v2Tagger.cs:229 | the unchecked `(int)` cast keeps a 32-bit value and otherwise wraps modulo 2^32 |
| Numeric.ToUInt32 | Howler/Core/MediaLibrary/Collection.cs:163-166 | the unchecked `(uint)` cast keeps a value in 0..2^32-1 and otherwise wraps modulo 2^32 |
| Numeric.Int32ThroughUInt64 | Howler/Core/Tagging/ID3v2Tagger.cs:194-229 | a play count stored through `(ulong)` reads back unchanged through `(int)` |
| Numeric.CeilDiv | Howler/Core/Tagging/ID3v2Tagger.cs:154 | the quotient rounded up: the least q with k * q at least a |
| Text.MatchFromAt | Howler/Core/Tagging/OggTagger.cs:118-122 | case-insensitive matching from an index holds exactly when every later pair of characters agrees after upper-casing |
| Text.EqualsIgnoreCaseAt | Howler/Core/Tagging/OggTagger.cs:122-142 | `OrdinalIgnoreCase` equality holds exactly for equal lengths and characters equal after upper-casing |
| Text.StartsWithIgnoreCaseAt | Howler/Core/Tagging/OggTagger.cs:118-137 | `StartsWith(…, OrdinalIgnoreCase)` holds exactly when the prefix fits and matches character by character after upper-casing |
| Text.EqualsIgnoreCaseIsEquivalence | Howler/Core/Tagging/OggTagger.cs:199-200 | case-insensitive equality is reflexive, symmetric and transitive |
| Text.StartsWithRespectsCase | Howler/Core/Tagging/OggTagger.cs:176-205 | names equal ignoring case have the same case-insensitive prefixes |
| Text.DigitChar | Howler/Core/Tagging/OggTagger.cs:202-231 | the character printed for a digit is a decimal digit with that value |
| Text.NatToDecimal | Howler/Core/Tagging/OggTagger.cs:202-231 | the invariant-culture text of a number is a non-empty digit string with no leading zero that reads back as the number |
| Text.TensDigitLeads | Howler/Control/TrackListViewController.cs:256-258 | a two-digit number is printed tens digit first |
| Text.TrimStart | Howler/Core/Tagging/OggTagger.cs:153-163 | the result is a suffix of the text; what was cut is all white space, and the result is empty or starts with a non-white character |
| Text.TrimEnd | Howler/Core/Tagging/OggTagger.cs:153-163 | the result is a prefix of the text; what was cut is all white space, and the result is empty or ends with a non-white character |
| Text.ParseFormatRoundTrip | Howler/Core/Tagging/OggTagger.cs:153-202 | every 32-bit integer written as invariant-culture text parses back to itself |
| Text.ParseRejectsBlank | Howler/Core/Tagging/OggTagger.cs:153-163 | an empty or white-space text does not parse |
| Text.ReadIntegerAccepts | Howler/Core/Tagging/OggTagger.cs:153-163 | the number reader accepts exactly the texts that spell an integer (white space, an optional sign, decimal digits, white space and NUL characters), and reads the integer spelled |
| Text.ParseInt32Accepts | Howler/Core/Tagging/OggTagger.cs:153-163 | `int.Parse` returns `v` exactly when the text spells the 32-bit integer `v` (white space, an optional sign, decimal digits, white space and NUL characters), throws `OverflowException` exactly when it spells an integer outside 32 bits, and throws `FormatException` exactly when it spells none |
| Text.TrailingNulsAccepted | Howler/Core/Tagging/OggTagger.cs:163 | "5 \0\0" parses as 5: NUL characters after the number and its white space are accepted |
| Text.NulBeforeWhiteRejected | Howler/Core/Tagging/OggTagger.cs:163 | "5\0 " is rejected with a `FormatException`: a NUL followed by white space is not accepted |
| Text.OutOfRangeOverflows | Howler/Core/Tagging/OggTagger.cs:153-163 | the decimal text of an integer outside 32 bits is read as that integer and then rejected, the `OverflowException` case |
| Text.Pad | Howler/Control/BaseTrackListViewController.cs:250-261 | a zero-padded number has exactly the width, consists of digits and reads back as the number |
| Text.PadFullWidth | Howler/Control/BaseTrackListViewController.cs:250-261 | padding to two digits changes nothing for a number that already has two |
| Text.ConcatAppend | Howler/Core/MediaLibrary/Collection.cs:130 | concatenating two lists of strings concatenates their concatenations |
| Text.RepeatBlock | Howler/Control/BaseTrackListViewController.cs:129-130 | each block of a repeated text is the text itself |
| Text.LongestFrom | Howler/Core/Tagging/OggTagger.cs:242-246 | the scan's result is at least as long as its start and as every text, and is either the start or the first text of its length |
| Text.Longest | Howler/Core/Tagging/OggTagger.cs:240-248 | the result is at least as long as every text, and is "" or the first text of its length |
| Sorting.Insert | Howler/Core/MediaLibrary/Entities/Album.cs:49 | inserting into a sorted sequence keeps it sorted and adds exactly the element |
| Sorting.Sort | Howler/Core/MediaLibrary/Entities/Album.cs:49 | the result is sorted and a permutation of the input |
| Sorting.SortedUnique | Howler/Core/MediaLibrary/Entities/Album.cs:49 | two sorted permutations of the same elements are equal |
| Sorting.SortIgnoresOrder | Howler/Core/Database/Collection.cs:274 | permutations of one input sort to the same result |
| Sorting.IntLeIsTotal | Howler/Core/MediaLibrary/Entities/Album.cs:49 | the order on artist ids is a total order |
| Sorting.UnitsLeIsTotalAt | Howler/Core/Database/Collection.cs:274 | the lexicographic order on UTF-16 code-unit sequences, a proper prefix first, is reflexive, antisymmetric, transitive and total |
| Sorting.CodeUnitsInjective | Howler/Core/Database/Collection.cs:274 | two strings with the same UTF-16 code units are equal, so comparing code units never ties distinct names |
| Sorting.OrdinalLeIsTotalAt | Howler/Core/Database/Collection.cs:274 | the ordinal order on strings, by UTF-16 code unit, is reflexive, antisymmetric, transitive and total |
| Sorting.LeadingCharDecides | Howler/Core/Database/Collection.cs:274 | when the first characters differ and lie below U+D800, the smaller one puts its string strictly first |
| Sorting.SurrogateSortsFirst | Howler/Core/Database/Collection.cs:274 | a character above U+FFFF sorts strictly before one in U+E000..U+FFFF, although its code point is larger |
| Sorting.StringLeIsTotal | Howler/Core/Database/Collection.cs:274 | the ordinal order on strings is a total order |
| Dates.CompareFields | Howler/Control/BaseTrackListViewController.cs:291-303 | the comparison gives -1, 0 or 1, and 0 exactly for equal fields |
| Dates.CompareFieldsAntisymmetric | Howler/Control/BaseTrackListViewController.cs:291-303 | swapping the operands negates the comparison |
| Dates.CompareTo | Howler/Control/BaseTrackListViewController.cs:291-303 | `DateTime.CompareTo` gives -1, 0 or 1, and 0 exactly for equal timestamps, down to the 100-ns tick |
| Dates.CompareToAntisymmetric | Howler/Control/BaseTrackListViewController.cs:291-303 | swapping the timestamps negates the comparison |
| Dates.MinValueIsLeast | Howler/Control/BaseTrackListViewController.cs:295-303 | no timestamp precedes `DateTime.MinValue` |
| Dates.CompareToWithinSecond | Howler/Control/BaseTrackListViewController.cs:291 | two timestamps in the same second are ordered by their sub-second ticks |
| Dates.Format | Howler/Core/Tagging/ID3v2Tagger.cs:276-296 | the text written for a granularity has 4 characters for the year and 3 more for each finer field |
| Dates.FormatPrefix | Howler/Core/Tagging/ID3v2Tagger.cs:276-296 | the text of a coarser granularity is a prefix of every finer text of the same timestamp |
| Dates.ParseFields | Howler/Core/Tagging/ID3v2Tagger.cs:276-296 | a text that reads back as fields has the length of the format with that many fields |
| Dates.ParseFormat | Howler/Core/Tagging/ID3v2Tagger.cs:276-296 | every written timestamp reads back as the fields its granularity writes |
| TrackProperties.ColumnTitle | Howler/Control/TrackProperty.cs:5-40 | a column title is the member's description ("Album Artist", "BPM", "Bits per sample", "Channels", "Date Added", "Last Played", "Disc #", "Sample rate", "Track #"), and its name when it has none |
| TrackProperties.ColumnTitlesDistinct | Howler/Util/Extensions.cs:63-70 | two properties have the same column title exactly when they are the same property |
| Extensions.HexDigit | Howler/Util/Extensions.cs:43 | the digit printed for a nibble is a lower-case hex digit |
| Extensions.HexValue | Howler/Util/Extensions.cs:43 | reading a character back gives a nibble exactly for lower-case hex digits, and that nibble prints as the character |
| Extensions.HexByte | Howler/Util/Extensions.cs:43 | the "x2" text of a byte is two lower-case hex digits |
| Extensions.Hex | Howler/Util/Extensions.cs:53-60 | the appended "x2" texts are two lower-case hex digits per byte |
| Extensions.UnHex | Howler/Util/Extensions.cs:53-60 | a decoded hex string yields one byte per two characters |
| Extensions.HexByteValues | Howler/Util/Extensions.cs:43 | the two digits of a byte read back as its high and low nibble |
| Extensions.UnHexHex | Howler/Util/Extensions.cs:53-60 | the printed digest decodes to the digest bytes: nothing is lost in printing |
| Extensions.HexInjective | Howler/Util/Extensions.cs:53-60 | different digests never print the same |
| Extensions.HexAppend | Howler/Util/Extensions.cs:55-58 | each loop iteration appends the next byte's two digits |
| Extensions.Utf8Char | Howler/Util/Extensions.cs:37 | a character encodes to 1 to 4 bytes, and to one byte exactly when it is ASCII |
| Extensions.Utf8 | Howler/Util/Extensions.cs:37 | a string encodes to between one and four bytes per character |
| Extensions.Utf8Append | Howler/Util/Extensions.cs:37 | encoding a concatenation encodes the parts one after the other |
| Extensions.Utf8OfAscii | Howler/Util/Extensions.cs:37 | an ASCII string encodes to its character codes, one byte each |
| Extensions.GetMd5HashOfBytes | Howler/Util/Extensions.cs:49-61 | the result is 32 lower-case hex digits that decode to the digest of the input |
| Extensions.GetMd5HashOfString | Howler/Util/Extensions.cs:35-47 | the result is 32 characters that decode to the digest of the input's UTF-8 bytes |
| Extensions.Md5Hex | Howler/Util/Extensions.cs:49-61 | the printed digest is 32 characters and decodes to the digest |
| Extensions.Md5HexEqual | Howler/Util/Extensions.cs:49-61 | two inputs print the same hash exactly when their digests are equal |
| Extensions.ToHashSet | Howler/Util/Extensions.cs:15-28 | the set holds exactly the elements of the source |
| Extensions.CoversAppend | Howler/Util/Extensions.cs:30-33 | adding an element never uncovers an element already covered by the comparer |
| Extensions.UnrelatedAppend | Howler/Util/Extensions.cs:30-33 | adding an element the comparer equates with no member keeps the members pairwise unequal |
| Extensions.ToHashSetWith | Howler/Util/Extensions.cs:30-33 | every source element is equal under the comparer to a kept element, kept elements come from the source and no two are equal under the comparer |
| Id3v2Tagger.FindUser | Howler/Core/Tagging/ID3v2Tagger.cs:175-219 | the index of the first frame of the user, and none exactly when no frame has that user |
| Id3v2Tagger.Get | Howler/Core/Tagging/ID3v2Tagger.cs:217-219 | a frame is found exactly when some frame has the user, and it is that user's frame |
| Id3v2Tagger.GetOrCreate | Howler/Core/Tagging/ID3v2Tagger.cs:175-202 | the result holds a frame of the user; existing frames are untouched when the user has one, and otherwise a new frame is appended |
| Id3v2Tagger.PopmToBanshee | Howler/Core/Tagging/ID3v2Tagger.cs:65-89 | a byte maps to 0..5 stars, and to 0 exactly when it is 0 |
| Id3v2Tagger.BansheeToPopm | Howler/Core/Tagging/ID3v2Tagger.cs:92-109 | any number of stars outside 1..5 maps to byte 0 |
| Id3v2Tagger.PopmToBansheeBands | Howler/Core/Tagging/ID3v2Tagger.cs:65-109 | a byte reaches b stars exactly when it is at least the byte written for b stars |
| Id3v2Tagger.PopmToBansheeMonotone | Howler/Core/Tagging/ID3v2Tagger.cs:65-89 | a larger byte never reads as fewer stars |
| Id3v2Tagger.BansheeRoundTrip | Howler/Core/Tagging/ID3v2Tagger.cs:65-109 | stars 0..5 written as a byte read back as the same stars |
| Id3v2Tagger.MediaMonkeyToPopm | Howler/Core/Tagging/ID3v2Tagger.cs:114-127 | a rating of 0 or less gives byte 0, and ratings 1..103 give a non-zero byte |
| Id3v2Tagger.PopmToMediaMonkey | Howler/Core/Tagging/ID3v2Tagger.cs:255-266 | the rating read is between 0 and the byte |
| Id3v2Tagger.MediaMonkeyRoundTrip | Howler/Core/Tagging/ID3v2Tagger.cs:114-266 | ratings 26..103 read back unchanged, ratings 1..25 read back 3 higher, and ratings of 0 or less read back as 0 |
| Id3v2Tagger.HowlerToPopm | Howler/Core/Tagging/ID3v2Tagger.cs:130-133 | a rating 0..255 is stored as itself and a negative rating as 255 |
| Id3v2Tagger.PopmToHowler | Howler/Core/Tagging/ID3v2Tagger.cs:233-253 | the rating read lies in -1..255, Banshee and Quod Libet frames give multiples of 20 in 0..100, and an unknown user gives -1 |
| Id3v2Tagger.HowlerRoundTrip | Howler/Core/Tagging/ID3v2Tagger.cs:130-248 | a Howler frame reads back a rating 0..100 unchanged, and a negative rating as -1 |
| Id3v2Tagger.BansheeByte | Howler/Core/Tagging/ID3v2Tagger.cs:146-157 | ratings 1..25 are written as the byte of their stars rounded up, and rating 0 as byte 1 |
| Id3v2Tagger.BansheeByteOutOfRange | Howler/Core/Tagging/ID3v2Tagger.cs:154-155 | ratings below 0 or above 25 are written to a Banshee frame as byte 0 |
| Id3v2Tagger.RateFrame | Howler/Core/Tagging/ID3v2Tagger.cs:144-169 | a frame keeps its user and play count; a Howler frame takes the Howler byte, and an unknown user's frame is unchanged |
| Id3v2Tagger.RateFrames | Howler/Core/Tagging/ID3v2Tagger.cs:141-170 | every frame is rated in place and the number of frames is kept |
| Id3v2Tagger.StoreRating | Howler/Core/Tagging/ID3v2Tagger.cs:138-180 | every existing frame is rated by its user's scale in place; a Howler frame with the Howler byte exists afterwards, and at most one frame is added, a Howler frame with no plays; dates are untouched |
| Id3v2Tagger.CountFrames | Howler/Core/Tagging/ID3v2Tagger.cs:185-195 | every frame takes the count and keeps everything else |
| Id3v2Tagger.StorePlayCount | Howler/Core/Tagging/ID3v2Tagger.cs:182-205 | every frame, whatever its user, holds the `(ulong)` count; a Howler frame is appended exactly when no known frame exists |
| Id3v2Tagger.FirstOf | Howler/Core/Tagging/ID3v2Tagger.cs:215-224 | the frame found belongs to a listed user and is that user's first frame; none is found exactly when no frame has a listed user |
| Id3v2Tagger.FirstOfPriority | Howler/Core/Tagging/ID3v2Tagger.cs:53-224 | no user that has a frame and is listed before the chosen frame's user is skipped |
| Id3v2Tagger.GetRatingAndPlayCount | Howler/Core/Tagging/ID3v2Tagger.cs:209-231 | with no known frame the result is -1 and 0; otherwise it is the rating and `(int)` count of the frame of the first user in priority order that has one |
| Id3v2Tagger.HowlerFrameWins | Howler/Core/Tagging/ID3v2Tagger.cs:209-231 | a Howler frame, whenever present, supplies the rating and play count |
| Id3v2Tagger.StoreRatingThenRead | Howler/Core/Tagging/ID3v2Tagger.cs:138-253 | a rating 0..100 stored and read back is unchanged, and a negative one reads back as -1 |
| Id3v2Tagger.StorePlayCountThenRead | Howler/Core/Tagging/ID3v2Tagger.cs:182-231 | every 32-bit play count stored and read back is unchanged |
| Id3v2Tagger.SetTextFrame | Howler/Core/Tagging/ID3v2Tagger.cs:299 | texts that are all empty remove every TDRC frame; otherwise the first TDRC frame, created when missing, takes the texts and the others stay |
| Id3v2Tagger.FormatAll | Howler/Core/Tagging/ID3v2Tagger.cs:273-297 | one text per timestamp, each written with its granularity |
| Id3v2Tagger.SetDates | Howler/Core/Tagging/ID3v2Tagger.cs:268-300 | a null list is the `ArgumentNullException`; otherwise the first TDRC frame holds one text per timestamp in its granularity's format, and the POPM frames are untouched |
| Id3v2Tagger.SetDatesPrefix | Howler/Core/Tagging/ID3v2Tagger.cs:276-296 | the text for a coarser granularity is a prefix of the text for a finer one |
| Id3v2Tagger.Flatten | Howler/Core/Tagging/ID3v2Tagger.cs:302-314 | a text occurs in the result exactly when some TDRC frame holds it |
| Id3v2Tagger.GetDate | Howler/Core/Tagging/ID3v2Tagger.cs:302-314 | the result is a TDRC text at least as long as every other and the first of that length in frame order, or "" when there is none |
| Id3v2Tagger.SetDatesThenGetDate | Howler/Core/Tagging/ID3v2Tagger.cs:268-314 | dates written into a tag without TDRC frames read back at the length of the finest granularity written |
| OggTagger.GetFieldFinds | Howler/Core/Tagging/OggTagger.cs:241 | a lookup by name yields the values of the first field whose name matches ignoring case, and nothing when none does |
| OggTagger.SetField | Howler/Core/Tagging/OggTagger.cs:202-234 | a present field takes the single value in place, every other field is kept, and a missing field is appended |
| OggTagger.Overwrite | Howler/Core/Tagging/OggTagger.cs:202-234 | the fields named like the given name take the single value; the other fields and the length are kept |
| OggTagger.RemoveField | Howler/Core/Tagging/OggTagger.cs:191 | no field of the name remains and every field of another name is kept |
| OggTagger.HowlerRatingNames | Howler/Core/Tagging/OggTagger.cs:118-199 | the reader's prefix-and-creator test for `RATING:HOWLER` and the writer's whole-name test agree |
| OggTagger.NameClasses | Howler/Core/Tagging/OggTagger.cs:118-200 | names equal ignoring case are classified alike by every name test |
| OggTagger.FirstHowlerRating | Howler/Core/Tagging/OggTagger.cs:118-127 | the first `RATING:HOWLER` field, or none when there is none |
| OggTagger.RatingLimit | Howler/Core/Tagging/OggTagger.cs:116 | the rating part of the scan looks at no more fields than have been scanned |
| OggTagger.ScanDone | Howler/Core/Tagging/OggTagger.cs:116-127 | the scan has stopped rating work exactly when a `RATING:HOWLER` field has been seen |
| OggTagger.LastRatingField | Howler/Core/Tagging/OggTagger.cs:118-133 | the last rating field within a range, or none when the range has none |
| OggTagger.ScanRating | Howler/Core/Tagging/OggTagger.cs:113-149 | the rating text kept is the first value of the last rating field up to the first `RATING:HOWLER`, and MediaMonkey mode is on exactly when a bare `RATING` field lies in that range |
| OggTagger.ScanPlaycount | Howler/Core/Tagging/OggTagger.cs:136-148 | no play count text is kept before a `RATING:HOWLER` field; after it the kept text is the first value of the last `PLAYCOUNT:*` field up to and including the first `PLAYCOUNT:HOWLER`, and the play count part is done exactly when such a field exists |
| OggTagger.ParseOrThrow | Howler/Core/Tagging/OggTagger.cs:153-163 | parsing succeeds exactly when `int.Parse` returns a value, and gives that 32-bit value; otherwise the error is the `OverflowException` when the text spells an integer outside 32 bits and the `FormatException` when it spells none |
| OggTagger.ParseOrThrowErrors | Howler/Core/Tagging/OggTagger.cs:153-163 | the decimal text of an integer outside 32 bits fails with the `OverflowException` and "0.6" with the `FormatException` |
| OggTagger.RatingOf | Howler/Core/Tagging/OggTagger.cs:150-160 | no rating text gives -1; a 0.0-1.0 text gives -1 or five times its stars |
| OggTagger.PlaycountOf | Howler/Core/Tagging/OggTagger.cs:161-164 | no play count text gives 0; otherwise the result is the 32-bit integer the text spells, and when there is none, the exception `int.Parse` throws for the text |
| OggTagger.GetRatingAndPlayCount | Howler/Core/Tagging/OggTagger.cs:105-165 | the rating is -1 without a kept rating text, the integer it spells in the `RATING:HOWLER` and MediaMonkey modes, and five times the stars read otherwise; the play count is 0 without a kept text and the integer it spells otherwise; the read fails exactly when a text to be parsed spells no 32-bit integer, with the exception `int.Parse` throws for that text, the rating's first |
| OggTagger.NoRatingFieldReadsUnrated | Howler/Core/Tagging/OggTagger.cs:105-165 | a comment with no rating field reads as rating -1 with 0 plays |
| OggTagger.PlaycountNeedsHowlerRating | Howler/Core/Tagging/OggTagger.cs:136-148 | without a `RATING:HOWLER` field every play count field is ignored, so a successful read gives 0 plays |
| OggTagger.RatingSource | Howler/Core/Tagging/OggTagger.cs:113-160 | the rating comes from the last rating field up to the first `RATING:HOWLER`, parsed as an integer when `RATING:HOWLER` exists or a bare `RATING` precedes it, and read on the 0.0-1.0 scale otherwise |
| OggTagger.LastRatingFieldIs | Howler/Core/Tagging/OggTagger.cs:118-133 | the last rating field is the one that no later rating field follows |
| OggTagger.BansheeToOgg | Howler/Core/Tagging/OggTagger.cs:81-100 | stars outside 1..5 give the unrated "0.5", and any other text comes from stars 1..5 |
| OggTagger.UnratedOggText | Howler/Core/Tagging/OggTagger.cs:195-196 | ratings 0 and above 100 are written to other players' fields as unrated "0.5" |
| OggTagger.RatingNames | Howler/Core/Tagging/OggTagger.cs:174-181 | the collected names are exactly the names of the rating fields, and none without rating fields |
| OggTagger.PlaycountNames | Howler/Core/Tagging/OggTagger.cs:218-224 | the collected names are exactly the names of the `PLAYCOUNT:*` fields, and none without them |
| OggTagger.Without | Howler/Core/Tagging/OggTagger.cs:188-192 | the fields left are exactly those no removed name matches |
| OggTagger.RemoveFieldsIsWithout | Howler/Core/Tagging/OggTagger.cs:188-192 | removing names one at a time removes exactly the fields some name matches |
| OggTagger.NonRating | Howler/Core/Tagging/OggTagger.cs:188-192 | the fields left are exactly the fields that are not rating fields |
| OggTagger.WithoutRatingNames | Howler/Core/Tagging/OggTagger.cs:174-192 | removing by the collected rating names leaves exactly the non-rating fields |
| OggTagger.Marked | Howler/Core/Tagging/OggTagger.cs:197-235 | each field matched by a name is rewritten with that name's text; the others and the length are kept |
| OggTagger.SetFieldsIsMarked | Howler/Core/Tagging/OggTagger.cs:197-235 | setting present fields one name at a time rewrites each matched field in place |
| OggTagger.MatchesRatingNames | Howler/Core/Tagging/OggTagger.cs:174-181 | a name from the comment matches a collected rating name exactly when it is a rating name |
| OggTagger.MarkedRatingFields | Howler/Core/Tagging/OggTagger.cs:174-209 | marking by the collected rating names rewrites exactly the rating fields |
| OggTagger.MarkedPlaycountFields | Howler/Core/Tagging/OggTagger.cs:215-235 | marking by the collected play count names rewrites exactly the `PLAYCOUNT:*` fields |
| OggTagger.StoreRating | Howler/Core/Tagging/OggTagger.cs:169-211 | a negative rating removes every rating field and keeps the others in order; otherwise every rating field takes its own text for the rating in place, or `RATING:HOWLER` with the decimal rating is appended when there is none |
| OggTagger.StorePlayCount | Howler/Core/Tagging/OggTagger.cs:213-236 | every `PLAYCOUNT:*` field takes the decimal count in place and the others are kept, or `PLAYCOUNT:HOWLER` with the count is appended when there is none |
| OggTagger.StoreRatingThenRead | Howler/Core/Tagging/OggTagger.cs:105-211 | a rating of 0 or more written to a comment without rating fields reads back unchanged, with 0 plays |
| OggTagger.PlayCountLostWithoutHowlerRating | Howler/Core/Tagging/OggTagger.cs:136-236 | a play count stored on a comment without `RATING:HOWLER` reads back as 0 |
| OggTagger.MixedRatingFieldsFailToRead | Howler/Core/Tagging/OggTagger.cs:129-208 | a bare `RATING` field followed by `RATING:QUODLIBET` stores 60 as "60" and "0.6", and reading it back fails with the `FormatException` for "0.6" |
| OggTagger.GetDate | Howler/Core/Tagging/OggTagger.cs:238-249 | the result is a `DATE` value at least as long as every other and the first of that length, or "" when there is none |
| TagLibExtensions.GetRating | Howler/Core/Tagging/TagLibExtensions.cs:9-23 | an ID3v2 tag yields the ID3v2 reader's rating, a Xiph comment the Xiph reader's rating or its parse error, and any other tag 0 |
| TagLibExtensions.CombinedRatingIsZero | Howler/Core/Tagging/TagLibExtensions.cs:9-23 | a combined tag is neither ID3v2 nor Xiph, so it reads as rating 0 whatever its parts hold |
| TagLibExtensions.GetDate | Howler/Core/Tagging/TagLibExtensions.cs:25-63 | an uncombined Xiph or ID3v2 tag yields its reader's date, any other uncombined tag "" |
| TagLibExtensions.FirstStop | Howler/Core/Tagging/TagLibExtensions.cs:32-51 | the first Xiph comment or FLAC block from an index on, or none when there is none |
| TagLibExtensions.LastId3v2Since | Howler/Core/Tagging/TagLibExtensions.cs:48-50 | the last ID3v2 sub-tag from an index on, or none when there is none |
| TagLibExtensions.SelectFromIsChosen | Howler/Core/Tagging/TagLibExtensions.cs:27-52 | the loop chooses the first stopping sub-tag, else the last ID3v2 sub-tag, else the tag it started with |
| TagLibExtensions.FirstXiphWins | Howler/Core/Tagging/TagLibExtensions.cs:34-39 | the first Xiph comment supplies the date, even after an ID3v2 sub-tag |
| TagLibExtensions.FlacBlockDecides | Howler/Core/Tagging/TagLibExtensions.cs:41-46 | a FLAC block ends the search: its comment supplies the date, and without one the date is "" |
| TagLibExtensions.LastId3v2Wins | Howler/Core/Tagging/TagLibExtensions.cs:48-60 | with no Xiph comment or FLAC block the last ID3v2 sub-tag supplies the date, and with none the date is "" |
| Entities.IdLittleEndian | Howler/Core/MediaLibrary/Entities/Album.cs:51 | an id occupies four bytes in memory |
| Entities.IdBytes | Howler/Core/MediaLibrary/Entities/Album.cs:49-51 | the id array occupies four bytes per id |
| Entities.SortedIds | Howler/Core/MediaLibrary/Entities/Album.cs:49 | the ids in ascending order, each kept as often as before |
| Entities.HashedBytes | Howler/Core/MediaLibrary/Entities/Album.cs:43-51 | the copied bytes are the id count times the width |
| Entities.ArtistsHash | Howler/Core/MediaLibrary/Entities/Album.cs:41-54 | the stored hash is 32 characters and decodes to the MD5 digest of the copied bytes |
| Entities.ArtistsHashIgnoresOrder | Howler/Core/MediaLibrary/Entities/Album.cs:49-53 | the hash depends only on which artists an album has, counted with multiplicity, not on the list's order |
| Entities.ZeroWidthHashIsConstant | Howler/Core/MediaLibrary/Entities/Album.cs:43-53 | with a struct-layout width of 0 no byte is hashed, so every album gets the same hash |
| Entities.ArtistsHashEqual | Howler/Core/MediaLibrary/Entities/Album.cs:49-53 | two artist lists share a hash exactly when MD5 gives their copied bytes the same digest |
| Entities.NewAlbum | Howler/Core/MediaLibrary/Entities/Album.cs:34-39 | a new album has no artists and no tracks, and its hash is current |
| Entities.SetArtists | Howler/Core/MediaLibrary/Entities/Album.cs:14-23 | the setter replaces the artist list, makes the hash current and changes nothing else |
| Entities.AddArtist | Howler/Core/MediaLibrary/Entities/Album.cs:56-60 | one artist is appended, the hash is current again and nothing else changes |
| Entities.NewArtist | Howler/Core/MediaLibrary/Entities/Artist.cs:24-28 | a new artist has the name and empty album and track sets |
| Entities.AddAlbum | Howler/Core/MediaLibrary/Entities/Artist.cs:30-34 | the artist is appended to the album's list while the album's hash is left as it was, and the album joins the artist's set |
| Entities.ArtistAddTrack | Howler/Core/MediaLibrary/Entities/Artist.cs:36-40 | the artist is appended to the track's artists, the track joins the artist's set, and nothing else changes |
| Entities.AddAlbumLeavesHashStale | Howler/Core/MediaLibrary/Entities/Artist.cs:30-34 | after `AddAlbum` the album's hash is current only if MD5 gives the old and new artist lists the same digest |
| Entities.AddAlbumChangesHashedBytes | Howler/Core/MediaLibrary/Entities/Artist.cs:30-34 | with a positive width the bytes to hash differ before and after `AddAlbum` |
| Entities.AddAlbumTwice | Howler/Core/MediaLibrary/Entities/Artist.cs:30-34 | a second `AddAlbum` leaves the artist's set as it was but lists the artist twice in the album |
| Entities.ArtistAddTrackTwice | Howler/Core/MediaLibrary/Entities/Artist.cs:36-40 | a second `AddTrack` leaves the artist's set as it was but lists the artist twice in the track |
| Entities.NewGenre | Howler/Core/MediaLibrary/Entities/Genre.cs:15-18 | a new genre has the name and an empty track set |
| Entities.GenreAddTrack | Howler/Core/MediaLibrary/Entities/Genre.cs:20-24 | the genre is appended to the track's genres, the track joins the genre's set, and nothing else changes |
| Entities.GenreAddTrackTwice | Howler/Core/MediaLibrary/Entities/Genre.cs:20-24 | a second `AddTrack` leaves the genre's set as it was while the track's list grows by one more entry |
| MediaLibrary.GetExtension | Howler/Core/MediaLibrary/Collection.cs:62 | a file's extension is empty or a dot-led suffix of its path |
| MediaLibrary.ExtensionOf | Howler/Core/MediaLibrary/Collection.cs:62 | the extension of `stem.ext`, where `ext` holds no dot or separator, is `.ext` |
| MediaLibrary.UpperCaseExtensionImported | Howler/Core/MediaLibrary/Collection.cs:60-62 | the extension filter ignores case, so an `.MP3` file is imported |
| MediaLibrary.NoExtensionNotImported | Howler/Core/MediaLibrary/Collection.cs:60-62 | a file without an extension is never imported |
| MediaLibrary.MusicFiles | Howler/Core/MediaLibrary/Collection.cs:60-62 | the enumerated files kept are exactly those whose extension is `.mp3`, `.m4a` or `.flac` in any case |
| MediaLibrary.TagLibHash | Howler/Core/MediaLibrary/Collection.cs:129-130 | the change key is 32 hex digits that decode to the MD5 of the UTF-8 of the concatenated strings |
| MediaLibrary.AlbumBoundaryUndetected | Howler/Core/MediaLibrary/Collection.cs:109-130 | text moved from the album title into an empty album-artist list leaves the change key unchanged, so that edit is not detected |
| MediaLibrary.Except | Howler/Core/MediaLibrary/Collection.cs:255-312 | `Except` yields exactly the names of the first list absent from the second, each once |
| MediaLibrary.ExceptKeepsOrder | Howler/Core/MediaLibrary/Collection.cs:255-312 | `Except` yields the names in the order they first occur in the first list |
| MediaLibrary.Matching | Howler/Core/MediaLibrary/Collection.cs:237-280 | the query yields exactly the positions of the stored entities whose name is wanted, in store order |
| MediaLibrary.SaveArtists | Howler/Core/MediaLibrary/Collection.cs:264-272 | saving keeps the stored artists and appends one new artist per name, with the next ids |
| MediaLibrary.SaveGenres | Howler/Core/MediaLibrary/Collection.cs:314-322 | saving keeps the stored genres and appends one new genre per name, with the next ids |
| MediaLibrary.NewArtistNames | Howler/Core/MediaLibrary/Collection.cs:255-260 | the artists to add are exactly the album artists and performers not stored yet, each once |
| MediaLibrary.SaveArtistsValid | Howler/Core/MediaLibrary/Collection.cs:262-273 | saving only unknown, distinct names keeps the artist ids sequential and the names unique |
| MediaLibrary.SaveGenresValid | Howler/Core/MediaLibrary/Collection.cs:314-322 | saving only unknown, distinct names keeps the genre ids sequential and the names unique |
| MediaLibrary.FindAlbum | Howler/Core/MediaLibrary/Collection.cs:286-306 | the album found is the first with the tag's title and the album artists' hash; none is found only when no album has both |
| MediaLibrary.UpsertAlbum | Howler/Core/MediaLibrary/Collection.cs:276-307 | a matching album is reused untouched; otherwise one new album with the tag's title, the matching artists and their hash is appended |
| MediaLibrary.UpsertAlbumValid | Howler/Core/MediaLibrary/Collection.cs:293-307 | after the upsert the albums stay valid and the returned album exists |
| MediaLibrary.AddNonTrackEntities | Howler/Core/MediaLibrary/Collection.cs:253-325 | the tracks stay; the unknown artists and genres are saved, then the album is upserted against the new artists |
| MediaLibrary.AddNonTrackEntitiesNames | Howler/Core/MediaLibrary/Collection.cs:253-325 | afterwards every album artist, performer and genre of the tag is stored exactly once |
| MediaLibrary.AddNonTrackEntitiesValid | Howler/Core/MediaLibrary/Collection.cs:253-325 | the library stays valid, the returned album exists, and the stored artists, genres and albums keep their places |
| MediaLibrary.NewTrack | Howler/Core/MediaLibrary/Collection.cs:156-176 | a new track fails exactly when the file lists no codec; otherwise it carries the path, album, change key, matched artists and genres, a play count of 0, the import time and no last-played date |
| MediaLibrary.Rescan | Howler/Core/MediaLibrary/Collection.cs:205-220 | a rescan takes the path, album, change key, title, date, rating and tempo from the file and keeps the id, play count, dates added and last played, and disc number |
| MediaLibrary.Reconcile | Howler/Core/MediaLibrary/Collection.cs:198-226 | after reconciliation the track lists exactly the newly matched entities |
| MediaLibrary.ReconcileAsWritten | Howler/Core/MediaLibrary/Collection.cs:198-226 | when the code as written completes, the track lists exactly the newly matched entities |
| MediaLibrary.ReconcileAsWrittenFails | Howler/Core/MediaLibrary/Collection.cs:198-223 | the code as written throws exactly when some entity has to be removed, and otherwise agrees with the reconciliation |
| MediaLibrary.UpdateTrack | Howler/Core/MediaLibrary/Collection.cs:193-233 | the update fails exactly when the file lists no codec; otherwise only the updated track changes, rescanned, with its artists and genres reconciled against the tag |
| MediaLibrary.AddTrack | Howler/Core/MediaLibrary/Collection.cs:152-191 | the add fails exactly when the file lists no codec; otherwise exactly one new track is appended, holding the tag's matched artists and genres |
| MediaLibrary.FindPath | Howler/Core/MediaLibrary/Collection.cs:132-136 | the track found is the first with the path; none is found only when no track has it |
| MediaLibrary.Decide | Howler/Core/MediaLibrary/Collection.cs:132-148 | a file is added exactly when no track has its path, skipped exactly when a track with its path has its change key, and otherwise the first track with its path is updated |
| MediaLibrary.AddTrackValid | Howler/Core/MediaLibrary/Collection.cs:152-191 | adding a new path keeps the library valid and leaves a track with that path and change key |
| MediaLibrary.UpdateTrackValid | Howler/Core/MediaLibrary/Collection.cs:193-233 | updating a track with that path keeps the library valid and moves no other track |
| MediaLibrary.ImportFileValid | Howler/Core/MediaLibrary/Collection.cs:94-150 | importing a file keeps the library valid, adds at most one track, moves no track but to the file's path, and leaves a track with the file's path and change key |
| MediaLibrary.UnchangedFileSkipped | Howler/Core/MediaLibrary/Collection.cs:138-146 | a file whose path and change key are already stored leaves the library unchanged |
| MediaLibrary.ImportFileIdempotent | Howler/Core/MediaLibrary/Collection.cs:94-150 | importing the same file twice gives the same library as importing it once |
| MediaLibrary.ImportAllValid | Howler/Core/MediaLibrary/Collection.cs:71-74 | importing files in turn keeps the library valid, loses no track and takes every changed path from the files |
| MediaLibrary.ImportDirectoryOnlyMusic | Howler/Core/MediaLibrary/Collection.cs:55-92 | after a directory import the library is valid and every added track comes from a file that passes the extension filter |
| LegacyCollection.Commit | Howler/Core/Database/Collection.cs:67-80 | saving changes keeps the library and marks every pending entity as stored |
| LegacyCollection.LegacyFilterIsCaseSensitive | Howler/Core/Database/Collection.cs:52-53 | the earlier filter compares extensions exactly, so it takes `.mp3` but not `.MP3`, which the current filter takes |
| LegacyCollection.LegacyMusicFiles | Howler/Core/Database/Collection.cs:52-53 | the enumerated files kept are exactly those whose extension is exactly `.mp3`, `.m4a` or `.flac` |
| LegacyCollection.LegacyFindPath | Howler/Core/Database/Collection.cs:121-135 | a track with the path is found exactly when one exists, and a pending one is preferred to a stored one |
| LegacyCollection.LegacyDecide | Howler/Core/Database/Collection.cs:121-138 | a file is added exactly when no track has its path, skipped exactly when a track with its path has its change key, and otherwise a track with its path, pending first, is updated |
| LegacyCollection.LegacyTrackArtists | Howler/Core/Database/Collection.cs:236-245 | the artists linked are the pending ones named as performers and every stored artist, named or not |
| LegacyCollection.StoredArtistLinkedUnnamed | Howler/Core/Database/Collection.cs:243-244 | a stored artist the tag does not name is linked to the track, where the current import would not link it |
| LegacyCollection.LegacyTrackGenres | Howler/Core/Database/Collection.cs:224-233 | the genres linked are exactly the pending and stored genres the tag names, each once |
| LegacyCollection.OrdinalSorted | Howler/Core/Database/Collection.cs:274 | ordering the names ordinally gives a permutation of them sorted by UTF-16 code unit |
| LegacyCollection.AlbumKey | Howler/Core/Database/Collection.cs:274-276 | the album key is 32 hex digits that decode to the MD5 of the UTF-8 of the album-artist names sorted by UTF-16 code unit, concatenated |
| LegacyCollection.AlbumKeySurrogateFirst | Howler/Core/Database/Collection.cs:274-276 | for the album artists U+FF21 and U+1F600 the key hashes the emoji first, against code-point order |
| LegacyCollection.AlbumKeyIgnoresOrder | Howler/Core/Database/Collection.cs:274-276 | the key does not depend on the order in which the tag lists its album artists |
| LegacyCollection.AlbumKeyOfSorted | Howler/Core/Database/Collection.cs:274-276 | for names already in ordinal order the key hashes their plain concatenation |
| LegacyCollection.AlbumKeyCollision | Howler/Core/Database/Collection.cs:274-276 | with no separator, the album artists `ab`, `c` and `a`, `bc` share a key |
| LegacyCollection.AlbumKeyOfPairs | Howler/Core/Database/Collection.cs:274-276 | two pairs of names, each in ordinal order, with the same concatenation share a key |
| LegacyCollection.LegacyFindAlbum | Howler/Core/Database/Collection.cs:279-317 | an album with the title and key is found exactly when one exists, and a pending one is preferred to a stored one |
| LegacyCollection.LegacyUpsertAlbum | Howler/Core/Database/Collection.cs:278-318 | a matching album is reused untouched; otherwise one new album with the tag's title and key, linked to exactly the artists named as album artists, is appended |
| LegacyCollection.LegacyNewGenreNames | Howler/Core/Database/Collection.cs:321-325 | the genres to add are exactly the tag's genres that no pending genre has, each once and in the order the tag first lists them |
| LegacyCollection.LegacyAddNonTrackEntities | Howler/Core/Database/Collection.cs:247-338 | the tracks stay; the unknown artists and the genres with no pending namesake are added, then the album is upserted |
| LegacyCollection.LegacyArtistsStayUnique | Howler/Core/Database/Collection.cs:249-271 | artist names stay unique, and every album artist and performer of the tag is stored exactly once |
| LegacyCollection.StoredGenreAddedAgain | Howler/Core/Database/Collection.cs:321-335 | a stored genre the tag names is added a second time, so genre names stop being unique |
| LegacyCollection.LegacyNewTrack | Howler/Core/Database/Collection.cs:145-165 | a new track fails exactly when the file lists no codec; otherwise it carries the path, album, change key, artists and genres, a play count of 0, the default date as date added, and the tag's rating |
| LegacyCollection.LegacyRescan | Howler/Core/Database/Collection.cs:194-209 | a rescan takes the path, album, change key, title, date, rating and tempo from the file and keeps the id, play count and dates |
| LegacyCollection.LegacyAddTrack | Howler/Core/Database/Collection.cs:141-180 | the add fails exactly when the file lists no codec; otherwise exactly one pending track is appended, with the artists and genres the lookups return |
| LegacyCollection.LegacyUpdateTrack | Howler/Core/Database/Collection.cs:182-222 | the update fails exactly when the file lists no codec; otherwise only the updated track changes, rescanned, with its artists and genres reconciled |
| LegacyCollection.LegacyImportFile | Howler/Core/Database/Collection.cs:85-139 | an import keeps the session well formed, leaves the stored counts alone and loses no track |
| LegacyCollection.LegacyImportFileKeepsPathsUnique | Howler/Core/Database/Collection.cs:85-139 | an import keeps track paths unique and leaves a track with the file's path and change key |
| LegacyCollection.LegacyAddKeepsPathsUnique | Howler/Core/Database/Collection.cs:141-180 | adding a new path keeps track paths unique and leaves a track with that path and key |
| LegacyCollection.LegacyUpdateKeepsPathsUnique | Howler/Core/Database/Collection.cs:182-222 | updating the track with the path keeps track paths unique and leaves a track with that path and key |
| LegacyCollection.LegacyUnchangedFileSkipped | Howler/Core/Database/Collection.cs:130-136 | a file whose path and change key are already present leaves the session unchanged |
| LegacyCollection.LegacyImportAll | Howler/Core/Database/Collection.cs:62-65 | importing files in turn keeps the session well formed and commits nothing |
| LegacyCollection.LegacyImportAllKeepsPathsUnique | Howler/Core/Database/Collection.cs:62-65 | importing files in turn keeps track paths unique and loses no track |
| LegacyCollection.LegacyImportDirectory | Howler/Core/Database/Collection.cs:47-83 | a missing directory changes nothing; a successful import ends with every entity stored |
| LegacyCollection.LegacyImportDirectoryKeepsPathsUnique | Howler/Core/Database/Collection.cs:47-83 | a directory import keeps track paths unique and loses no track |
| AudioPlayer.PathStringToUri | Howler/Core/Playback/AudioPlayer.cs:172-175 | the URI is "file:///" followed by the path unchanged |
| AudioPlayer.PathStringToUriInjective | Howler/Core/Playback/AudioPlayer.cs:172-175 | two paths give the same URI exactly when they are the same path |
| AudioPlayer.NewPlayer | Howler/Core/Playback/AudioPlayer.cs:22-61 | a new player has an empty array, index 0, no URI, and no state requested of the engine |
| AudioPlayer.IsPlayingCases | Howler/Core/Playback/AudioPlayer.cs:63-70 | the player is playing when `Playing` is pending, or when it is in `Playing` with nothing pending, and not under any other pending change |
| AudioPlayer.ReplacePlaylistAndPlay | Howler/Core/Playback/AudioPlayer.cs:106-121 | an index past the end throws with nothing changed; otherwise the array and index are replaced, the new track's URI is set and played, and the event names the new track and the old one, which is null exactly when the old index was out of range |
| AudioPlayer.NextTrack | Howler/Core/Playback/AudioPlayer.cs:148-165 | with a following track, the index advances, its URI is played and the event names the old and new tracks; otherwise only `Ready` is requested and no event is raised |
| AudioPlayer.EndOfStream | Howler/Core/Playback/AudioPlayer.cs:82-94 | with a following track, end of stream acts as `NextTrack`; at the last track nothing changes |
| AudioPlayer.PreviousTrack | Howler/Core/Playback/AudioPlayer.cs:133-146 | nothing happens at index 0; with the index inside the array the previous track is played and announced; with the index past the end `Null` is requested and the read throws |
| AudioPlayer.ClearQueue | Howler/Core/Playback/AudioPlayer.cs:100-104 | the array is emptied and the URI cleared while the index and the engine state stay |
| AudioPlayer.Play | Howler/Core/Playback/AudioPlayer.cs:123-126 | only `Playing` is requested; the array, index and URI stay |
| AudioPlayer.Pause | Howler/Core/Playback/AudioPlayer.cs:167-170 | only `Paused` is requested; the array, index and URI stay |
| AudioPlayer.Stop | Howler/Core/Playback/AudioPlayer.cs:128-131 | only `Ready` is requested; the array, index and URI stay |
| AudioPlayer.CurrentPreserved | Howler/Core/Playback/AudioPlayer.cs:83-165 | a successful replacement leaves the index inside the array, and moving forwards, backwards or past the end of a stream keeps it there |
| AudioPlayer.IndexOkPreserved | Howler/Core/Playback/AudioPlayer.cs:22-165 | "index inside the array or 0" holds for a new player and is kept by every operation except `ClearQueue`; under it `PreviousTrack` never throws |
| AudioPlayer.ClearQueueLeavesIndexDangling | Howler/Core/Playback/AudioPlayer.cs:100-146 | `ClearQueue` keeps a non-zero index, so the next `PreviousTrack` stops the engine and then reads past the end and throws |
| AudioPlayer.NextAfterClear | Howler/Core/Playback/AudioPlayer.cs:100-165 | after `ClearQueue`, `NextTrack` finds no following track and only requests `Ready` |
| AudioPlayer.NextThenPrevious | Howler/Core/Playback/AudioPlayer.cs:133-165 | `PreviousTrack` after `NextTrack` restores the index and array and plays the original track's URI |
| TrackView.CompareStringsAntisymmetric | Howler/Control/BaseTrackListViewController.cs:162-168 | with an antisymmetric collation, swapping the strings flips the sign |
| TrackView.CompareNumbers | Howler/Control/BaseTrackListViewController.cs:139-147 | `CompareTo` on integers gives -1, 0 or 1, negative exactly for the smaller and 0 exactly for equal numbers |
| TrackView.Ordinal | Howler/Control/SourceTreeViewController.cs:64-69 | the ordinal comparison gives -1, 0 or 1, and 0 exactly for equal strings |
| TrackView.OrdinalIsAntisymmetric | Howler/Control/SourceTreeViewController.cs:64-69 | swapping the strings flips the sign of the ordinal comparison |
| TrackView.ColumnTextNull | Howler/Control/BaseTrackListViewController.cs:234-367 | a cell is null exactly for the artist, album artist and genre columns of a track without artists, and for the last-played column of a never-played track |
| TrackView.ColumnTextValues | Howler/Control/BaseTrackListViewController.cs:237-367 | nullable numbers show blank when null, the duration shows as a clock, and artists, album artists and genres are joined with "; " |
| TrackView.GenreHiddenWithoutArtists | Howler/Control/BaseTrackListViewController.cs:244-320 | a track without artists shows blank genre and album artist cells, whatever genres and album artists it has |
| BaseTrackList.DefaultOrder | Howler/Control/BaseTrackListViewController.cs:125-151 | rows tie exactly when the joined artists, the joined album artists and the album titles tie and the disc and track numbers, with null as 0, are equal; an artist difference decides |
| BaseTrackList.ArtistsKeyIsTypeNames | Howler/Control/BaseTrackListViewController.cs:129-130 | the artists' joined text is the artist type name once per artist, so for a non-empty type name two tracks tie on it exactly when they have as many artists |
| BaseTrackList.AlbumArtistsKeyIsTypeNames | Howler/Control/BaseTrackListViewController.cs:132-133 | the album artists' joined text is the artist type name once per album artist, so for a non-empty type name two tracks tie on it exactly when their albums have as many artists |
| BaseTrackList.DefaultOrderByKeys | Howler/Control/BaseTrackListViewController.cs:125-151 | rows with the same artist counts, album title and numbers are ordered alike against every row |
| BaseTrackList.ArtistNamesIgnored | Howler/Control/BaseTrackListViewController.cs:129-133 | rows that differ only in their artists' names tie |
| BaseTrackList.DefaultOrderAntisymmetric | Howler/Control/BaseTrackListViewController.cs:125-151 | with an antisymmetric collation, swapping the rows flips the sign |
| BaseTrackList.MissingNumberIsZero | Howler/Control/BaseTrackListViewController.cs:270-367 | a missing BPM, disc number, rating or track number ties with 0 |
| BaseTrackList.DurationSortsAsText | Howler/Control/BaseTrackListViewController.cs:250-261 | the duration column sorts by its text, so under an ordinal collation a one-hour track sorts before a 59:59 one |
| BaseTrackList.DurationLeadDecides | Howler/Control/BaseTrackListViewController.cs:250-261 | under an ordinal collation, two durations whose texts start with different digits sort by those digits |
| BaseTrackList.ColumnOrder | Howler/Control/BaseTrackListViewController.cs:192-204 | a column's sort function ties exactly when its comparer and the default order tie, and a comparer difference decides |
| BaseTrackList.ComparerAntisymmetric | Howler/Control/BaseTrackListViewController.cs:229-372 | with an antisymmetric collation every column's comparer flips sign when the rows are swapped |
| BaseTrackList.ColumnOrderAntisymmetric | Howler/Control/BaseTrackListViewController.cs:192-204 | with an antisymmetric collation every column's sort function flips sign when the rows are swapped |
| BaseTrackList.Layout | Howler/Control/BaseTrackListViewController.cs:48-178 | a property listed twice makes construction fail; otherwise one column per property, in order, with its position as sort id and its initial width |
| BaseTrackList.LayoutSortIdsDistinct | Howler/Control/BaseTrackListViewController.cs:48-195 | the columns of a layout have distinct sort ids and properties |
| BaseTrackList.WidthChanged | Howler/Control/BaseTrackListViewController.cs:210-227 | a width is saved exactly for a known column whose property has a stored width, when the width differs and exceeds 5; only that property's width changes |
| BaseTrackList.SavedWidthIsRestored | Howler/Control/BaseTrackListViewController.cs:173-227 | a saved width is the one the next controller gives the column |
| BaseTrackList.UnstoredWidthStaysDefault | Howler/Control/BaseTrackListViewController.cs:173-219 | a property without a stored width never gets one by resizing, so it keeps starting at 200 |
| BaseTrackList.Mapped | Howler/Control/BaseTrackListViewController.cs:115-120 | the known columns' properties, no more than there are columns |
| BaseTrackList.MappedAll | Howler/Control/BaseTrackListViewController.cs:115-120 | when every column is known, the properties are the columns' properties position by position |
| BaseTrackList.ColumnsChanged | Howler/Control/BaseTrackListViewController.cs:111-123 | the saved array has one slot per column, filled from the front with the known columns' properties in column order; leftover slots keep the enum default |
| BaseTrackList.ColumnsChangedAllKnown | Howler/Control/BaseTrackListViewController.cs:111-123 | after a reorder in which every column is known, the saved array lists the columns' properties in their new order |
| Durations.Hours | Howler/Control/BaseTrackListViewController.cs:253-256 | `TimeSpan.Hours` lies strictly between -24 and 24 and is non-negative for a non-negative span |
| Durations.Minutes | Howler/Control/BaseTrackListViewController.cs:253-258 | `TimeSpan.Minutes` lies strictly between -60 and 60 and is non-negative for a non-negative span |
| Durations.Seconds | Howler/Control/BaseTrackListViewController.cs:253-258 | `TimeSpan.Seconds` lies strictly between -60 and 60 and is non-negative for a non-negative span |
| Durations.ClockComponents | Howler/Control/BaseTrackListViewController.cs:253-258 | for a non-negative span the components are the clock fields, with hours taken modulo 24 |
| Durations.TwoDigits | Howler/Control/BaseTrackListViewController.cs:255-258 | `{0:D2}` of a non-negative component is its two-digit zero-padded text |
| Durations.Fields | Howler/Control/BaseTrackListViewController.cs:254-258 | the fields shown are valid clock fields: hours, minutes and seconds from one hour on, minutes and seconds below |
| Durations.ParseClockText | Howler/Control/BaseTrackListViewController.cs:255-258 | clock fields with later fields below 60 read back from their text unchanged |
| Durations.ClockTextLeads | Howler/Control/BaseTrackListViewController.cs:255-258 | a clock text starts with the digits of its leading field |
| Durations.DurationTextLeads | Howler/Control/BaseTrackListViewController.cs:254-258 | a duration text starts with the digits of its leading field |
| Durations.ShortClockFields | Howler/Control/BaseTrackListViewController.cs:257-258 | below one hour the minutes and seconds make up the whole seconds |
| Durations.LongClockFields | Howler/Control/BaseTrackListViewController.cs:255-256 | below one day the hours, minutes and seconds make up the whole seconds |
| Durations.ClockShift | Howler/Control/BaseTrackListViewController.cs:253-256 | a span one day longer has the same hours, minutes and seconds |
| DurationColumn.DurationTextFields | Howler/Control/BaseTrackListViewController.cs:250-261 | a span of one hour or more reads back as its hours, minutes and seconds, and a shorter one as its minutes and seconds |
| DurationColumn.ShortRoundTrip | Howler/Control/BaseTrackListViewController.cs:257-258 | below one hour the text reads back as the whole seconds |
| DurationColumn.LongRoundTrip | Howler/Control/BaseTrackListViewController.cs:254-256 | from one hour to one day the text reads back as the whole seconds |
| DurationColumn.DurationTextRoundTrip | Howler/Control/BaseTrackListViewController.cs:250-261 | below one day the duration text loses only the milliseconds |
| DurationColumn.DurationTextWrapsAtOneDay | Howler/Control/BaseTrackListViewController.cs:253-256 | the hour component wraps at 24, so a track one day longer shows the same text |
| TrackList.AddColumns | Howler/Control/TrackListViewController.cs:57-186 | each configured property gets a column with the next sort id and its saved width or 200; the list is sorted by the last Artist column, and by none when there is no Artist column |
| TrackList.NewController | Howler/Control/TrackListViewController.cs:30-75 | an empty or missing property array is replaced by the default columns and missing widths by the default widths, then the columns are laid out as in the column loop |
| TrackList.ColumnsForWidths | Howler/Control/TrackListViewController.cs:184-186 | a column takes its property's saved width, or 200 when none is saved; a repeated property still gets a column, where the shared layout rejects the list |
| TrackList.DefaultSettings | Howler/Control/TrackListViewController.cs:292-320 | every property has a default width, the default columns sort by the Artist column at index 2, and the track number and bitrate defaults are 30 and 80 |
| TrackList.CellText | Howler/Control/TrackListViewController.cs:209-211 | the bitrate column adds " kbps" to the bitrate; every other column shows the same text as in the library list |
| TrackList.ColumnOrder | Howler/Control/TrackListViewController.cs:164-176 | a column's order is zero exactly when its comparer and the default order both tie, and the comparer decides whenever it does not tie |
| TrackList.ColumnOrderAntisymmetric | Howler/Control/TrackListViewController.cs:164-176 | for an antisymmetric collation, swapping the rows flips the sign of every column's order |
| TrackList.TextColumnsAgree | Howler/Control/TrackListViewController.cs:143-176 | the twelve text-sorted columns sort identically in both list controllers |
| TrackList.MissingTrackNumberSortsFirst | Howler/Control/TrackListViewController.cs:275-282 | a track without a number sorts before every numbered track, track 0 included, where the other list ties it with track 0 |
| TrackList.MissingDiscNumberIsZero | Howler/Control/TrackListViewController.cs:236-243 | a missing disc number ties with disc 0 |
| TrackList.BitrateSortsAsText | Howler/Control/TrackListViewController.cs:209-211 | the bitrate column sorts by its text, so under an ordinal collation a higher bitrate can sort first |
| TrackList.PlaycountSortsAsText | Howler/Control/TrackListViewController.cs:256-258 | the play count column sorts by its text, so under an ordinal collation a higher count can sort first |
| Tracks.DefaultOrder | Howler/Control/TracksListViewController.cs:91-111 | the order is zero exactly when the joined artists, the joined album artists and the album titles all tie, and the artists decide whenever they differ |
| Tracks.KeysAreTypeNames | Howler/Control/TracksListViewController.cs:96-98 | the joined artists and album artists are the legacy artist type name once per artist, so two tracks tie on each exactly when they have as many artists |
| Tracks.NumbersIgnored | Howler/Control/TracksListViewController.cs:103-108 | the last stage compares the first track's number with itself, so two tracks of one album tie whatever their numbers, where the five-key order of the other lists separates them |
| Tracks.DefaultOrderAntisymmetric | Howler/Control/TracksListViewController.cs:91-111 | for an antisymmetric collation, swapping the rows flips the sign of the order |
| Tracks.Columns | Howler/Control/TracksListViewController.cs:62-81 | Title, Artist, Album Artist and Album with sort ids 0 to 3, Length unsortable, then one column per reflected string property, titled and read by that property, with sort ids from 4 on |
| Tracks.ColumnSortIds | Howler/Control/TracksListViewController.cs:62-86 | only the Length column is unsortable, the sortable columns have distinct ids, and id 1, which the list starts sorted by, is the Artist column |
| Tracks.ColumnOrder | Howler/Control/TracksListViewController.cs:179-223 | a column sorts exactly when its id is non-negative; then its order is zero exactly when the texts and the default order tie, and the texts decide whenever they differ |
| Tracks.ColumnOrderAntisymmetric | Howler/Control/TracksListViewController.cs:182-190 | for an antisymmetric collation, swapping the rows flips the sign of a column's order |
| Tracks.Filter | Howler/Control/TracksListViewController.cs:50-58 | the filtered view is never longer than the store |
| Tracks.FilterMembers | Howler/Control/TracksListViewController.cs:50-58 | a row is shown exactly when it is stored and the filter accepts it |
| Tracks.FilterAppend | Howler/Control/TracksListViewController.cs:50-58 | filtering keeps store order: the rows of a concatenation filter part by part |
| Tracks.FilterAcceptAll | Howler/Control/TracksListViewController.cs:50 | a filter that accepts every track shows the whole store |
| Tracks.NewView | Howler/Control/TracksListViewController.cs:40-58 | the view is built exactly when the collection lists no track twice, and then it holds every track in order and shows them all |
| Tracks.FilterStore | Howler/Control/TracksListViewController.cs:157-161 | replacing the filter leaves the store alone and shows the stored rows the new filter accepts |
| Tracks.TrackChanged | Howler/Control/TracksListViewController.cs:136-155 | the new track becomes current, the shown rows stay the same, and exactly the stored rows that are the old or new track are signalled |
| TrackListStore.NewStore | Howler/Control/TrackListStore.cs:14-22 | the store is built exactly when no track occurs twice, and then it holds the tracks in order with no current track |
| TrackListStore.InsertAt | Howler/Control/TrackListStore.cs:46 | an insertion adds exactly one row |
| TrackListStore.InsertAll | Howler/Control/TrackListStore.cs:41-49 | inserting tracks adds one row per track |
| TrackListStore.InsertAllElements | Howler/Control/TrackListStore.cs:41-49 | whatever the position, the rows afterwards are the stored rows plus the inserted tracks, each as often as before |
| TrackListStore.Reverse | Howler/Control/TrackListStore.cs:43-48 | the reverse of a sequence has its elements in the opposite order |
| TrackListStore.InsertTracks | Howler/Control/TrackListStore.cs:41-49 | with no duplicate every track is inserted at the fixed position; otherwise insertion stops after the first track that is already stored or listed earlier, that track's row included, and the current track is unchanged either way |
| TrackListStore.InsertAllReverses | Howler/Control/TrackListStore.cs:43-48 | inside the list the inserted tracks end up in reverse order at the position, with the stored rows around them in their old order |
| TrackListStore.InsertAllAppends | Howler/Control/TrackListStore.cs:43-48 | with a negative position the tracks are appended in their own order |
| TrackListStore.TwoTracksReversed | Howler/Control/TrackListStore.cs:43-48 | inserting two tracks at the front puts the second first |
| TrackListStore.HandleTrackChanged | Howler/Control/TrackListStore.cs:24-39 | the rows stay, the new track becomes current, and exactly the stored ones of the new and old track are signalled, the new one first, at most two signals |
| RowActivation.ViewTracks | Howler/Control/TrackListViewController.cs:110-123 | the array holds the track of every view row, in view order |
| RowActivation.RowActivated | Howler/Control/TrackListViewController.cs:104-125 | activating a row inside the view plays the whole view from that row, and an index past the end changes nothing and reports the out-of-range error; the library list (Howler/Control/TracksListViewController.cs, lines 113 to 134) activates rows the same way |
| SourceTree.AcceptsCases | Howler/Control/SourceTreeViewController.cs:37-69 | the Music and "Artist & Album Artist" nodes accept every track; an artist node accepts a track exactly when the artist's id is among the album's artists or the track's artists; an album node accepts exactly the tracks whose album title equals its own |
| SourceTree.AlbumNodeIgnoresArtists | Howler/Control/SourceTreeViewController.cs:61-69 | an album node admits the tracks of every album with its title, whatever that album's artists |
| SourceTree.ArtistNodeAdmitsAlbumTracks | Howler/Control/SourceTreeViewController.cs:57 | an artist node admits a track of an album the artist is credited on even when the track names other artists |
| SourceTree.SelectionChanged | Howler/Control/SourceTreeViewController.cs:21-33 | selecting a node leaves the store alone and shows exactly the stored rows its filter accepts; with no node value the shown rows do not change |
| SourceTree.SelectedRowsShown | Howler/Control/SourceTreeViewController.cs:21-49 | after selecting a node a row is shown exactly when it is stored and the node accepts it; after selecting a top node every stored row is shown |

## Findings

| source | as written | input that shows it | evidently intended | confidence | as-written member | corrected member |
|---|---|---|---|---|---|---|
| Howler/Core/MediaLibrary/Collection.cs:198, 222-223 | the artists to remove are a lazy `Where` over `track.Artists`, enumerated while the loop removes from that same collection; the genres at 202 and 228-229 are handled the same way | a track linked to artists 1 and 2 whose file now names only artist 3: removing 1 invalidates the enumerator, and the next step throws | the track's artists become exactly the newly matched ones | medium, since it depends on the collection rejecting changes during enumeration; not executed | MediaLibrary.ReconcileAsWritten, MediaLibrary.ReconcileAsWrittenFails | MediaLibrary.Reconcile |

`MediaLibrary.UpdateTrack` and `LegacyCollection.LegacyUpdateTrack` use the corrected reconciliation. Howler/Core/Database/Collection.cs:187, 211-212 has the same pattern.

## Left out

- I/O is not modelled:
  - opening and parsing audio files with TagLib, which becomes an `AudioFile` record of the properties and tag fields the import reads;
  - `Directory.Exists` and `Directory.EnumerateFiles`, which become a flag and a file list;
  - disposing files.
- Databases are not modelled. This covers the NHibernate and Entity Framework sessions, transactions, schema creation, SQLite, the LINQ providers, `GetTracks` and `GetTrackArtistsAndAlbumArtists`. The mapping files' uniqueness constraints appear only as the `Valid` invariant.
- The legacy context's pending entities are those added during the current import. Entities attached by earlier queries are not tracked separately. One such case is a stored genre attached when an earlier update lazily loaded `track.Genres`. The state manager holds it, so the source's `Except` would drop it, but `LegacyCollection.StoredGenreAddedAgain` predicts that it is added again.
- LegacyNewGenreNames: excludes only the genres added in this import. The source's `Except` runs against every genre the object state manager holds as Added, Modified or Unchanged, which also includes stored genres that earlier queries attached.
- MD5 is a function parameter. The digest algorithm itself is not modelled.
- Extensions.Utf8: strings are sequences of Unicode scalar values, so the model has no string with an unpaired UTF-16 surrogate. `Encoding.UTF8.GetBytes` would write EF BF BD for one, which would change `GetMd5HashOfString` and `MediaLibrary.TagLibHash`.
- MediaLibrary.TagInfo: TagLib's null string fields (`Title`, `Album` and the others) are taken as "". In the source, null and "" differ: the track stores null, and `string.Compare` puts null before "".
- `Album.ComputeNewArtistsHash` reads the id width from the class's struct-layout attribute, which is a run-time reflection. The width is a parameter from 0 to 4 bytes.
- Two members the import calls are not defined anywhere in the repository, so the model stands in for them:
  - the static `Album.ComputeArtistsHash(albumArtists)` (Howler/Core/MediaLibrary/Collection.cs:283) is taken to hash the ids as `ComputeNewArtistsHash` does, so `MediaLibrary.UpsertAlbum` uses `Entities.ArtistsHash`;
  - `Tag.GetRatingNullableUInt32()` (Howler/Core/MediaLibrary/Collection.cs:175 and :220) is an input, the `nullableRating` field of `MediaLibrary.TagInfo`. It is not tied to `TagLibExtensions.GetRating`.
- GStreamer is not modelled: the playbin, its state changes, the bus watch and the environment setup. The engine is an abstract state, and the end-of-stream message is a transition.
- Floating point is not modelled:
  - `OggToBanshee` parses a double, so it is a function parameter returning 0 to 5 stars;
  - the "{0:N1} MB" size text is a culture parameter;
  - `TotalMilliseconds` is taken as a whole number of milliseconds.
- Culture-dependent comparison (`StringComparison.CurrentCulture`) is an abstract collation parameter. Properties that need it assume it is reflexive or antisymmetric.
- `ToShortDateString` and `ToLongTimeString` are culture parameters.
- `OrdinalIgnoreCase` is modelled as ASCII case folding. Unicode case mapping is not modelled.
- TrackView.Ordinal: keeps only the sign of the code-unit difference .NET returns. Its one caller compares the result with 0.
- GTK is not modelled:
  - widgets, tree iterators and paths;
  - cell renderers and the bold weight of the playing row;
  - column drag and drop;
  - the `TreeModelSort` and `TreeModelFilter` machinery.

  The stores are sequences of rows, a sort function is a comparator over rows, and a filtered view is the filtered sequence.
- Settings persistence (`Reload`, `Save`) is not modelled. Saved settings are inputs and outputs of the controller functions.
- `TrackListModel` forwarding is not modelled. It merely passes the filter and the track change to the store.
- Reflection over the legacy track class's string properties is not modelled. The property names and their values are parameters of `Tracks.Columns` and `Tracks.CellText`.
- Rows always resolve an album. The source's null checks on `track.Album` are therefore not modelled.
- Tracks and artists are compared by value, where the source compares object references.
- `ToString` of an artist is the full name of its type, because the classes define no `ToString`. This is a constant.
- `BaseTrackList` takes a track's last-played date as a non-null date, with `DateTime.MinValue` standing for null.
- `Core/Database/Track.cs` reads a picture from disk, and the legacy entity classes beyond the fields the import touches are not modelled.
- `Id3v2Tagger.GetDate` reads the TDRC frames and their texts as sequences, which cannot be null.
- `Tracks.TrackChanged` does not model the rows it signals that are filtered out of the view. For such rows the source converts an iterator the view does not hold.
- DurationColumn.DurationTextRoundTrip: is stated only for durations from 0 up to one day, because from one day on the hours wrap (`DurationColumn.DurationTextWrapsAtOneDay`). Negative durations are not stated.
- Tracks.Filter: states only that the result is no longer than the store; which rows it keeps and their order are in `Tracks.FilterMembers` and `Tracks.FilterAppend`.
- TrackListStore.InsertAt: states only the new length; where the rows go is in `TrackListStore.InsertAllReverses` and `TrackListStore.InsertAllAppends`.
- TrackListStore.InsertAll: states only the new length, for the same reason.
- TrackListStore.InsertAllReverses: is stated for positions inside the list. `TrackListStore.InsertAllAppends` covers negative positions, where every track is appended. Positions past the end also append, but no lemma states it.
- MediaLibrary.ImportFile, MediaLibrary.ImportAll and MediaLibrary.ImportDirectory carry no contract of their own. What they promise is in `ImportFileValid`, `UnchangedFileSkipped`, `ImportFileIdempotent`, `ImportAllValid` and `ImportDirectoryOnlyMusic`.
- The source tree built from the collection (`GetTrackArtistsAndAlbumArtists` and each artist's albums) is not modelled. A node is any value of `SourceTree.Node`.
- The constructors' GTK wiring is not modelled: the events, scrolled windows and size requests.

