# Spotify playlist ETL: the transform job, modelled in Dafny

This project models the transform stage of a small batch ETL pipeline. Playlist
listings from a music-streaming API land as raw JSON files under
`raw_data/to_process/` in one storage bucket. The transform job
(`Glue-transform_spotify_data.py`) does two things:

- It explodes every record's `items` array into one row per playlist item. From those
  rows it projects three flat tables:
  - albums, deduplicated on `album_id`, with `album_release_date` normalised to a date;
  - artists, from a second explode over each track's `artists` list, deduplicated on
    `artist_id`;
  - songs, deduplicated on `song_id`, with `artist_id` taken from the album's first
    artist and `song_added` truncated to a date.

  Each table is appended to its output dataset.
- It then lists the landing prefix. It copies each `.json` key to `raw_data/processed/`
  under its file name and deletes the original.

The Spark column expressions are pure, so they are modelled as functions on sequences
(`DataFrames`, `Dates`, `Spotify`). The appends and the copy/delete loop change the
bucket, so they are modelled as methods of the class `GlueJob.Bucket`. That class holds
the bucket's objects as a `map<string, Blob>` and the three output datasets as sequences.
The archive loop is a `for` loop, proved equal to the function `Storage.ArchivePass`.
The lemmas in `Storage` state what that function does to the bucket.

Modules:

- `Wrappers`: `Option`, which stands for a nullable Spark column.
- `Dates`: the `yyyy-MM-dd` date parser and formatter, the release-date rule, and the
  `added_at` truncation.
- `DataFrames`: `explode`, row-wise projection, and `dropDuplicates` on one key. These
  are generic over the row type.
- `Spotify`: the raw playlist JSON model, the three table projections, and their
  properties.
- `Storage`: object keys, the file-name and extension rules, the archive step and pass,
  and their properties.
- `GlueJob`: the `Bucket` class, with the append writes, the archive loop, and a whole run.

Notes on how the model reads the code:

- `dropDuplicates` leaves open which duplicate survives. The model keeps the first one.
  Every property below holds whichever row survives, except `KeepsFirstOccurrences`.
- At line 68, `.alias("artists")` is applied to the DataFrame, not to the column. It has
  no effect, because the selected nested column is already named `artists`.
- The code calls `list_objects` once (line 110), and one call returns at most one page
  of keys, so the loop may not archive every JSON object under the prefix. The model
  follows the code: the listing is any sequence of distinct, stored keys under the landing
  prefix, and it need not be complete.
- The archive pass moves only keys whose text after the last '.' is `json`
  (line 112). A listed key with another extension stays where it is
  (`Storage.NonJsonKeysUntouched`).

## Model

| member | source | states |
|---|---|---|
| `DataFrames.Explode` | Glue-transform_spotify_data.py:34 | exploding gives as many rows as the arrays hold in total |
| `DataFrames.ExplodeAt` | Glue-transform_spotify_data.py:34 | element j of row i's array is at position (length of the rows before i) + j: one row per element, in order |
| `DataFrames.ExplodeAppend` | Glue-transform_spotify_data.py:22-34 | exploding a union of record batches is the concatenation of their explosions |
| `DataFrames.ExplodeMembership` | Glue-transform_spotify_data.py:71 | a value is in the explosion iff it is in the array of some input row |
| `DataFrames.MapRows` | Glue-transform_spotify_data.py:41-47 | a projection keeps the row count and maps row i to f(row i); no row is dropped |
| `DataFrames.Dedup` | Glue-transform_spotify_data.py:48 | dropDuplicates on a key: never more rows, every output row is an input row, the same key set as the input, pairwise distinct keys |
| `DataFrames.DedupCount` | Glue-transform_spotify_data.py:48 | exactly one row survives per distinct key of the input |
| `DataFrames.DedupOfDistinct` | Glue-transform_spotify_data.py:78 | a table whose keys are already distinct is returned unchanged |
| `DataFrames.DedupIdempotent` | Glue-transform_spotify_data.py:96 | deduplicating twice equals deduplicating once |
| `DataFrames.KeepsFirstOccurrences` | Glue-transform_spotify_data.py:48 | the first row carrying each key is the one that survives (the model's chosen survivor) |
| `Spotify.ExplodeItems` | Glue-transform_spotify_data.py:34 | one exploded row per item, as many rows as the records hold items in total; positions in `Spotify.ExplodeItemsAt` |
| `Spotify.ProjectAlbum` | Glue-transform_spotify_data.py:41-47 | definition of the album columns; properties in `Spotify.AlbumRowsFromInput`, `Spotify.AlbumIdsCovered` |
| `Spotify.NormalizeAlbum` | Glue-transform_spotify_data.py:51-59 | definition; the date rule's properties in `Dates.NormalizeReleaseDate`, `Dates.YearOnlyRule`, `Dates.FullDateRule`, `Dates.MalformedIsNull` |
| `Spotify.AlbumTable` | Glue-transform_spotify_data.py:41-59 | definition; properties in `Spotify.AlbumIdsDistinct`, `Spotify.AlbumIdsCovered`, `Spotify.AlbumRowsFromInput` |
| `Spotify.TrackArtistsOf` | Glue-transform_spotify_data.py:68-71 | definition: the track-level artist list; properties in `Spotify.ArtistIdsCovered` |
| `Spotify.ProjectArtist` | Glue-transform_spotify_data.py:74-77 | definition of the artist columns; properties in `Spotify.ArtistRowsFromInput` |
| `Spotify.ArtistTable` | Glue-transform_spotify_data.py:68-78 | definition; properties in `Spotify.ArtistIdsDistinct`, `Spotify.ArtistIdsCovered`, `Spotify.ArtistRowsFromInput` |
| `Spotify.FirstAlbumArtistId` | Glue-transform_spotify_data.py:95 | definition; properties in `Spotify.SongRowsFromInput`, `Spotify.FirstAlbumArtistExample` |
| `Spotify.ProjectSong` | Glue-transform_spotify_data.py:87-95 | definition of the song columns; properties in `Spotify.SongRowsFromInput`, `Spotify.SongTableIgnoresTrackArtists` |
| `Spotify.TruncateSongAdded` | Glue-transform_spotify_data.py:98 | definition; the truncation's properties in `Dates.TruncateToDate`, `Dates.TruncateTimestamp` |
| `Spotify.SongTable` | Glue-transform_spotify_data.py:87-98 | definition; properties in `Spotify.SongIdsDistinct`, `Spotify.SongCount`, `Spotify.SongRowsFromInput` |
| `Spotify.ExplodeItemsAt` | Glue-transform_spotify_data.py:34 | item j of record i is the exploded row at offset (items of records before i) + j |
| `Spotify.AlbumIdsDistinct` | Glue-transform_spotify_data.py:41-48 | the album table has pairwise distinct album ids |
| `Spotify.AlbumIdsCovered` | Glue-transform_spotify_data.py:41-48 | the table's album ids are exactly the album ids of all exploded rows, one row per id |
| `Spotify.AlbumRowsFromInput` | Glue-transform_spotify_data.py:41-59 | every album row is the projected album of some exploded row, with its release date normalised |
| `Spotify.ArtistIdsDistinct` | Glue-transform_spotify_data.py:68-78 | the artist table has pairwise distinct artist ids |
| `Spotify.ArtistIdsCovered` | Glue-transform_spotify_data.py:68-78 | every artist id in any row's track artist list appears in the artist table |
| `Spotify.ArtistRowsFromInput` | Glue-transform_spotify_data.py:68-78 | every artist row is the projection of an artist credited on some row's track |
| `Spotify.SongIdsDistinct` | Glue-transform_spotify_data.py:87-96 | the song table has pairwise distinct song ids |
| `Spotify.SongCount` | Glue-transform_spotify_data.py:87-98 | the song_added conversion keeps every deduplicated row; one song row per distinct track id |
| `Spotify.SongRowsFromInput` | Glue-transform_spotify_data.py:87-98 | every song row is the projected song of some exploded row with its added date truncated: all eight columns come from that one row; in particular its artist id is that row's album.artists[0].id, or null when the album lists no artist |
| `Spotify.SongTableIgnoresTrackArtists` | Glue-transform_spotify_data.py:95 | the song table does not depend on the tracks' own artist lists |
| `Spotify.FirstAlbumArtistExample` | Glue-transform_spotify_data.py:95 | album artists [A, B] and track artists [C, D] give artist_id A |
| `Spotify.SingleRecordScenario` | Glue-transform_spotify_data.py:34-98 | one record with two items on one album, two artists each: 1 album row, at most 4 artist rows, 2 song rows |
| `Dates.DaysInMonth` | Glue-transform_spotify_data.py:55 | month length in the proleptic Gregorian calendar, between 28 and 31 |
| `Dates.FormatDate` | Glue-transform_spotify_data.py:55 | the canonical yyyy-MM-dd text is 10 characters with dashes at positions 4 and 7 |
| `Dates.ParseDate` | Glue-transform_spotify_data.py:55-57 | a parsed date is valid and is exactly the date the string writes in yyyy-MM-dd |
| `Dates.ParseFormat` | Glue-transform_spotify_data.py:55-57 | parsing the canonical text of a valid date returns that date |
| `Dates.ParseDateIff` | Glue-transform_spotify_data.py:55-57 | a string parses iff it is the canonical text of some valid date |
| `Dates.NormalizeReleaseDate` | Glue-transform_spotify_data.py:51-59 | a result is a valid date whose text is the input plus "-01-01" when the input has length 4, and the input itself otherwise |
| `Dates.YearOnlyRule` | Glue-transform_spotify_data.py:54-55 | a 4-character value is a date iff it is a 4-digit year, and that date is January 1 of the year |
| `Dates.FullDateRule` | Glue-transform_spotify_data.py:57 | a full canonical date is kept as it is |
| `Dates.MalformedIsNull` | Glue-transform_spotify_data.py:57 | a value of neither 4 nor 10 characters becomes null (that the row itself is kept follows from `DataFrames.MapRows` keeping the row count) |
| `Dates.BareYearExample` | Glue-transform_spotify_data.py:55 | "2020" becomes 2020-01-01 |
| `Dates.FullDateExample` | Glue-transform_spotify_data.py:57 | "2020-05-17" becomes 2020-05-17 |
| `Dates.NullExamples` | Glue-transform_spotify_data.py:54-57 | "abcd" and "17" become null |
| `Dates.TruncateToDate` | Glue-transform_spotify_data.py:98 | a truncated value is the valid date written by the first 10 characters |
| `Dates.TruncateTimestamp` | Glue-transform_spotify_data.py:98 | a date followed by nothing, or by a time part starting with 'T' or a space, truncates to that date |
| `Storage.LastSegment` | Glue-transform_spotify_data.py:112 | split(sep)[-1]: the suffix after the last sep, free of sep, or the whole string when it has no sep |
| `Storage.IsJson` | Glue-transform_spotify_data.py:112 | definition: the text after the last '.' is "json"; properties of the split in `Storage.LastSegment` |
| `Storage.BaseName` | Glue-transform_spotify_data.py:117 | definition: the text after the last '/'; properties in `Storage.LastSegment`, `Storage.ArchiveKeySameBaseName` |
| `Storage.IsListing` | Glue-transform_spotify_data.py:110 | definition of what one listing call can return: distinct stored keys under the landing prefix |
| `Storage.ArchiveStep` | Glue-transform_spotify_data.py:111-121 | definition of one iteration; properties in `Storage.StepLeavesOthers` |
| `Storage.ArchivePass` | Glue-transform_spotify_data.py:110-121 | definition of the whole loop; properties in `Storage.ArchiveLeavesOthers`, `Storage.NonJsonKeysUntouched`, `Storage.JsonKeysRemoved`, `Storage.JsonKeyArchived`, `Storage.ArchiveKeepsPresent`, `Storage.ArchiveKeyPresent`, `Storage.ArchivePassKeys`, and `GlueJob.Bucket.ArchiveProcessed` |
| `Storage.ArchiveKey` | Glue-transform_spotify_data.py:117 | an archive key starts with raw_data/processed/ |
| `Storage.ArchiveKeyNotInLanding` | Glue-transform_spotify_data.py:110-117 | no archive key lies under the landing prefix |
| `Storage.ArchiveKeySameBaseName` | Glue-transform_spotify_data.py:117 | two keys share an archive key iff they share a file name |
| `Storage.StepLeavesOthers` | Glue-transform_spotify_data.py:112-121 | one copy-and-delete step touches only the copied key and its archive key |
| `Storage.ArchiveLeavesOthers` | Glue-transform_spotify_data.py:110-121 | a key that is neither a listed json key nor an archive destination is unchanged (present and equal, or absent) |
| `Storage.NonJsonKeysUntouched` | Glue-transform_spotify_data.py:112 | listed keys that are not json stay, with their content |
| `Storage.JsonKeysRemoved` | Glue-transform_spotify_data.py:121 | no listed json key remains after the pass |
| `Storage.JsonKeyArchived` | Glue-transform_spotify_data.py:114-118 | a listed json key's content is at raw_data/processed/ + its file name, unless a later json key with the same file name overwrote it |
| `Storage.FirstJsonKeyArchived` | Glue-transform_spotify_data.py:114-118 | the same for the first listed key |
| `Storage.ArchiveKeepsPresent` | Glue-transform_spotify_data.py:114-121 | the pass deletes no stored key other than the listed json keys |
| `Storage.ArchiveKeyPresent` | Glue-transform_spotify_data.py:114-118 | every listed json key has a copy under its archive key after the pass |
| `Storage.FirstArchiveKeyPresent` | Glue-transform_spotify_data.py:114-118 | the same for the first listed key |
| `Storage.ArchivePassKeys` | Glue-transform_spotify_data.py:110-121 | the keys after the pass are the old keys minus the listed json keys, plus their archive keys |
| `GlueJob.Bucket.AppendAlbums` | Glue-transform_spotify_data.py:62 | the album dataset becomes its old rows followed by the new rows; nothing else changes |
| `GlueJob.Bucket.AppendArtists` | Glue-transform_spotify_data.py:81 | the artist dataset becomes its old rows followed by the new rows; nothing else changes |
| `GlueJob.Bucket.AppendSongs` | Glue-transform_spotify_data.py:101 | the songs dataset becomes its old rows followed by the new rows; nothing else changes |
| `GlueJob.Bucket.ArchiveProcessed` | Glue-transform_spotify_data.py:110-121 | the loop leaves the bucket equal to ArchivePass of the old bucket: listed json keys are gone, non-json listed keys are unchanged, the datasets are unchanged |
| `GlueJob.Bucket.Run` | Glue-transform_spotify_data.py:34-121 | each dataset gains exactly this run's table after its earlier rows, and the bucket's objects are archived as ArchivePass says |

## Left out

- `Lambda-extract_spotify_data.py` and `Lambda-trigger_glue_jobs_on_s3_put.py` are not part of this model. They are an API call, an object write and a job-start call, with no logic to state.
- Glue and Spark setup, argument resolution, `job.init` and `job.commit` (lines 11-20, 103) are framework calls.
- The JSON reader (lines 22-31) is foreign. `GlueJob.Bucket.Run` takes the parsed records as a parameter. The model does not relate them to the bucket's objects.
- `.cache()` and distributed execution (line 34) are performance choices with no effect on the result.
- Missing or null JSON fields are not modelled. Every field of a record is present. The only nulls are an unparseable date and an empty album artist list (`getItem(0)` on an empty array).
- Parquet encoding, object-store failures and the missing-`Contents` crash when the listing is empty (line 110) are left out. Also left out: interleavings where the job fails between copy and delete, and concurrent runs.
- The ordering of `list_objects` (by key) is not modelled: the listing is a parameter. Its order matters only when two json keys share a file name.
- `Dates.NormalizeReleaseDate`: Spark's `to_date` with `yyyy-MM-dd` is simplified to exactly four digits, '-', two digits, '-', two digits, naming a real day from year 1 to 9999. Spark's own leniency, locale and calendar switch are not modelled.
- `Dates.TruncateToDate`: `to_date` without a pattern is simplified to a `yyyy-MM-dd` prefix followed by the end of the value, 'T' or a space. The shorter forms Spark also accepts ("yyyy", "yyyy-M") are not modelled.
- Integer columns (`total_tracks`, `duration_ms`, `popularity`) are unbounded integers. The transform only copies them, so their width plays no part.
- Row order is the model's choice. Spark's `dropDuplicates` and a parquet append define no order of rows. So "returned unchanged" in `DataFrames.DedupOfDistinct`, "the first row survives" in `DataFrames.KeepsFirstOccurrences`, and "old rows followed by the new rows" in the append contracts hold of the model's sequences. Read as statements about the datasets, they say only which rows are present, and how many times.
- Duplicate rows across runs are not modelled as a separate property. The append contracts imply them: a second run over the same records appends the same tables again.
