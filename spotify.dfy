/**
 * The playlist transform: the nested playlist records are exploded into one row per
 * playlist item, and three flat tables (albums, artists, songs) are projected from those
 * rows, each deduplicated on its primary key.
 */
module Spotify {
  import opened Wrappers
  import opened Dates
  import opened DataFrames

  // ---- Raw playlist records, as read from the landing JSON files ----

  datatype ExternalUrls = ExternalUrls(spotify: string)

  datatype ArtistJson = ArtistJson(id: string, name: string, externalUrls: ExternalUrls)

  datatype AlbumJson = AlbumJson(
    id: string, name: string, releaseDate: string, totalTracks: int,
    externalUrls: ExternalUrls, albumType: string, artists: seq<ArtistJson>)

  datatype TrackJson = TrackJson(
    id: string, name: string, durationMs: int, externalUrls: ExternalUrls,
    popularity: int, album: AlbumJson, artists: seq<ArtistJson>)

  datatype ItemJson = ItemJson(addedAt: string, track: TrackJson)

  datatype PlaylistJson = PlaylistJson(items: seq<ItemJson>)

  // ---- Output tables; the date column is a raw string before normalisation, a date after ----

  datatype Album<D> = Album(
    albumId: string, albumName: string, albumReleaseDate: D, albumTotalTracks: int,
    albumUrl: string, albumType: string)

  datatype Artist = Artist(artistId: string, artistName: string, artistUrl: string)

  datatype Song<D> = Song(
    songId: string, songName: string, songDuration: int, songUrl: string,
    songPopularity: int, songAdded: D, albumId: string, artistId: Option<string>)

  // ---- The shared exploded intermediate ----

  function ItemsOf(p: PlaylistJson): seq<ItemJson> { p.items }

  /** `explode(col("items"))`: one row per playlist item across all records. */
  function ExplodeItems(records: seq<PlaylistJson>): (r: seq<ItemJson>)
    ensures |r| == TotalLength(records, ItemsOf)
  {
    Explode(records, ItemsOf)
  }

  // ---- Albums ----

  function ProjectAlbum(item: ItemJson): Album<string>
  {
    var a := item.track.album;
    Album(a.id, a.name, a.releaseDate, a.totalTracks, a.externalUrls.spotify, a.albumType)
  }

  function AlbumKey(a: Album<string>): string { a.albumId }

  function NormalizeAlbum(a: Album<string>): Album<Option<Date>>
  {
    Album(a.albumId, a.albumName, NormalizeReleaseDate(a.albumReleaseDate),
          a.albumTotalTracks, a.albumUrl, a.albumType)
  }

  /** Albums projected from every row, deduplicated on album id, then their release dates normalised. */
  function AlbumTable(rows: seq<ItemJson>): seq<Album<Option<Date>>>
  {
    MapRows(NormalizeAlbum, Dedup(MapRows(ProjectAlbum, rows), AlbumKey))
  }

  // ---- Artists ----

  function TrackArtistsOf(item: ItemJson): seq<ArtistJson> { item.track.artists }

  function ProjectArtist(a: ArtistJson): Artist
  {
    Artist(a.id, a.name, a.externalUrls.spotify)
  }

  function ArtistKey(a: Artist): string { a.artistId }

  /** The track-level artist lists of every row, exploded, projected and deduplicated on artist id. */
  function ArtistTable(rows: seq<ItemJson>): seq<Artist>
  {
    Dedup(MapRows(ProjectArtist, Explode(rows, TrackArtistsOf)), ArtistKey)
  }

  // ---- Songs ----

  /**
   * `items.track.album.artists[0].id`: the first artist of the ALBUM's list, null when
   * that list is empty; the track's own artist list is not consulted.
   */
  function FirstAlbumArtistId(album: AlbumJson): Option<string>
  {
    if |album.artists| == 0 then None else Some(album.artists[0].id)
  }

  function ProjectSong(item: ItemJson): Song<string>
  {
    var t := item.track;
    Song(t.id, t.name, t.durationMs, t.externalUrls.spotify, t.popularity,
         item.addedAt, t.album.id, FirstAlbumArtistId(t.album))
  }

  function SongKey(s: Song<string>): string { s.songId }

  function TruncateSongAdded(s: Song<string>): Song<Option<Date>>
  {
    Song(s.songId, s.songName, s.songDuration, s.songUrl, s.songPopularity,
         TruncateToDate(s.songAdded), s.albumId, s.artistId)
  }

  /** Songs projected from every row, deduplicated on song id, then `song_added` truncated to a date. */
  function SongTable(rows: seq<ItemJson>): seq<Song<Option<Date>>>
  {
    MapRows(TruncateSongAdded, Dedup(MapRows(ProjectSong, rows), SongKey))
  }

  // ---- Properties of the exploded rows ----

  /** Every item of every record yields exactly one row, at its place in record order. */
  lemma ExplodeItemsAt(records: seq<PlaylistJson>, i: nat, j: nat)
    requires i < |records| && j < |records[i].items|
    ensures TotalLength(records[..i], ItemsOf) + j < |ExplodeItems(records)|
    ensures ExplodeItems(records)[TotalLength(records[..i], ItemsOf) + j] == records[i].items[j]
  {
    ExplodeAt(records, ItemsOf, i, j);
  }

  // ---- Properties of the album table ----

  lemma AlbumIdsDistinct(rows: seq<ItemJson>)
    ensures forall i, j :: 0 <= i < j < |AlbumTable(rows)| ==>
              AlbumTable(rows)[i].albumId != AlbumTable(rows)[j].albumId
  {
    var d := Dedup(MapRows(ProjectAlbum, rows), AlbumKey);
    assert forall i, j :: 0 <= i < j < |d| ==> AlbumKey(d[i]) != AlbumKey(d[j]);
  }

  /** The album ids of the table are exactly the album ids of all exploded rows, and there is one row per id. */
  lemma AlbumIdsCovered(rows: seq<ItemJson>)
    ensures (set i | 0 <= i < |AlbumTable(rows)| :: AlbumTable(rows)[i].albumId)
         == (set i | 0 <= i < |rows| :: rows[i].track.album.id)
    ensures |AlbumTable(rows)| == |set i | 0 <= i < |rows| :: rows[i].track.album.id|
  {
    var p := MapRows(ProjectAlbum, rows);
    var d := Dedup(p, AlbumKey);
    var t := AlbumTable(rows);
    assert (set i | 0 <= i < |t| :: t[i].albumId) == KeySet(d, AlbumKey) by {
      forall k | k in KeySet(d, AlbumKey) ensures k in (set i | 0 <= i < |t| :: t[i].albumId) {
        var i :| 0 <= i < |d| && AlbumKey(d[i]) == k;
        assert t[i].albumId == k;
      }
    }
    assert KeySet(p, AlbumKey) == (set i | 0 <= i < |rows| :: rows[i].track.album.id) by {
      forall k | k in (set i | 0 <= i < |rows| :: rows[i].track.album.id) ensures k in KeySet(p, AlbumKey) {
        var i :| 0 <= i < |rows| && rows[i].track.album.id == k;
        assert AlbumKey(p[i]) == k;
      }
    }
    DedupCount(p, AlbumKey);
  }

  /** Every album row is the projected, date-normalised album of some exploded row. */
  lemma AlbumRowsFromInput(rows: seq<ItemJson>, i: nat)
    requires i < |AlbumTable(rows)|
    ensures exists j :: 0 <= j < |rows| && AlbumTable(rows)[i] == NormalizeAlbum(ProjectAlbum(rows[j]))
  {
    var p := MapRows(ProjectAlbum, rows);
    var d := Dedup(p, AlbumKey);
    assert AlbumTable(rows)[i] == NormalizeAlbum(d[i]);
    assert d[i] in p;
    var j :| 0 <= j < |p| && p[j] == d[i];
    assert AlbumTable(rows)[i] == NormalizeAlbum(ProjectAlbum(rows[j]));
  }

  // ---- Properties of the artist table ----

  lemma ArtistIdsDistinct(rows: seq<ItemJson>)
    ensures forall i, j :: 0 <= i < j < |ArtistTable(rows)| ==>
              ArtistTable(rows)[i].artistId != ArtistTable(rows)[j].artistId
  {
    var t := ArtistTable(rows);
    assert forall i, j :: 0 <= i < j < |t| ==> ArtistKey(t[i]) != ArtistKey(t[j]);
  }

  /** Every artist id credited on any row's track appears in the artist table. */
  lemma ArtistIdsCovered(rows: seq<ItemJson>, r: nat, k: nat)
    requires r < |rows| && k < |rows[r].track.artists|
    ensures exists i :: 0 <= i < |ArtistTable(rows)| && ArtistTable(rows)[i].artistId == rows[r].track.artists[k].id
  {
    var e := Explode(rows, TrackArtistsOf);
    var p := MapRows(ProjectArtist, e);
    var a := rows[r].track.artists[k];
    assert a in TrackArtistsOf(rows[r]);
    ExplodeMembership(rows, TrackArtistsOf, a);
    var n :| 0 <= n < |e| && e[n] == a;
    assert ArtistKey(p[n]) == a.id;
    assert a.id in KeySet(p, ArtistKey);
    var t := ArtistTable(rows);
    assert a.id in KeySet(t, ArtistKey);
  }

  /** Every artist row is the projection of an artist credited on some row's track. */
  lemma ArtistRowsFromInput(rows: seq<ItemJson>, i: nat)
    requires i < |ArtistTable(rows)|
    ensures exists r, k :: 0 <= r < |rows| && 0 <= k < |rows[r].track.artists|
              && ArtistTable(rows)[i] == ProjectArtist(rows[r].track.artists[k])
  {
    var e := Explode(rows, TrackArtistsOf);
    var p := MapRows(ProjectArtist, e);
    assert ArtistTable(rows)[i] in p;
    var n :| 0 <= n < |p| && p[n] == ArtistTable(rows)[i];
    ExplodeMembership(rows, TrackArtistsOf, e[n]);
    var r :| 0 <= r < |rows| && e[n] in TrackArtistsOf(rows[r]);
    var k :| 0 <= k < |rows[r].track.artists| && rows[r].track.artists[k] == e[n];
  }

  // ---- Properties of the song table ----

  lemma SongIdsDistinct(rows: seq<ItemJson>)
    ensures forall i, j :: 0 <= i < j < |SongTable(rows)| ==>
              SongTable(rows)[i].songId != SongTable(rows)[j].songId
  {
    var d := Dedup(MapRows(ProjectSong, rows), SongKey);
    assert forall i, j :: 0 <= i < j < |d| ==> SongKey(d[i]) != SongKey(d[j]);
  }

  /** Date truncation maps the deduplicated songs one to one: one song row per distinct song id of the input. */
  lemma SongCount(rows: seq<ItemJson>)
    ensures |SongTable(rows)| == |Dedup(MapRows(ProjectSong, rows), SongKey)|
    ensures |SongTable(rows)| == |set i | 0 <= i < |rows| :: rows[i].track.id|
  {
    var p := MapRows(ProjectSong, rows);
    assert KeySet(p, SongKey) == (set i | 0 <= i < |rows| :: rows[i].track.id) by {
      forall k | k in (set i | 0 <= i < |rows| :: rows[i].track.id) ensures k in KeySet(p, SongKey) {
        var i :| 0 <= i < |rows| && rows[i].track.id == k;
        assert SongKey(p[i]) == k;
      }
    }
    DedupCount(p, SongKey);
  }

  /**
   * Every song row comes from one exploded row: its id, album id and added date are that
   * row's, and its artist id is the id of the first artist of that row's album, or null.
   */
  lemma SongRowsFromInput(rows: seq<ItemJson>, i: nat)
    requires i < |SongTable(rows)|
    ensures exists j :: 0 <= j < |rows| && SongTable(rows)[i] == TruncateSongAdded(ProjectSong(rows[j]))
    ensures exists j :: 0 <= j < |rows|
              && SongTable(rows)[i].songId == rows[j].track.id
              && SongTable(rows)[i].albumId == rows[j].track.album.id
              && SongTable(rows)[i].songAdded == TruncateToDate(rows[j].addedAt)
              && SongTable(rows)[i].artistId ==
                   (if rows[j].track.album.artists == [] then None else Some(rows[j].track.album.artists[0].id))
  {
    var p := MapRows(ProjectSong, rows);
    var d := Dedup(p, SongKey);
    assert d[i] in p;
    var j :| 0 <= j < |p| && p[j] == d[i];
    assert SongTable(rows)[i] == TruncateSongAdded(ProjectSong(rows[j]));
  }

  /** Rows that differ only in their tracks' own artist lists give the same song table. */
  lemma SongTableIgnoresTrackArtists(rows: seq<ItemJson>, rows': seq<ItemJson>)
    requires |rows'| == |rows|
    requires forall i :: 0 <= i < |rows| ==>
               rows'[i] == rows[i].(track := rows[i].track.(artists := rows'[i].track.artists))
    ensures SongTable(rows') == SongTable(rows)
  {
    var p, p' := MapRows(ProjectSong, rows), MapRows(ProjectSong, rows');
    forall i | 0 <= i < |rows| ensures p'[i] == p[i] {
      assert rows'[i].track.album == rows[i].track.album;
    }
    assert p' == p;
  }

  /** A track credited to [C, D] on an album credited to [A, B] is attributed to A. */
  lemma FirstAlbumArtistExample(item: ItemJson, a: ArtistJson, b: ArtistJson, c: ArtistJson, d: ArtistJson)
    requires item.track.album.artists == [a, b] && item.track.artists == [c, d]
    ensures SongTable([item]) == [TruncateSongAdded(ProjectSong(item))]
    ensures SongTable([item])[0].artistId == Some(a.id)
  {
    assert Dedup(MapRows(ProjectSong, [item]), SongKey) == [ProjectSong(item)] by {
      DedupOfDistinct(MapRows(ProjectSong, [item]), SongKey);
    }
  }

  /**
   * One record with two items on the same album, with two credited artists each, gives
   * one album row, at most four artist rows and (for two distinct tracks) two song rows.
   */
  lemma SingleRecordScenario(i1: ItemJson, i2: ItemJson)
    requires i1.track.album.id == i2.track.album.id
    requires i1.track.id != i2.track.id
    requires |i1.track.artists| == 2 && |i2.track.artists| == 2
    ensures |AlbumTable(ExplodeItems([PlaylistJson([i1, i2])]))| == 1
    ensures |ArtistTable(ExplodeItems([PlaylistJson([i1, i2])]))| <= 4
    ensures |SongTable(ExplodeItems([PlaylistJson([i1, i2])]))| == 2
  {
    var rows := ExplodeItems([PlaylistJson([i1, i2])]);
    assert rows == [i1, i2];
    AlbumIdsCovered(rows);
    assert (set i | 0 <= i < |rows| :: rows[i].track.album.id) == {i1.track.album.id};
    SongCount(rows);
    assert (set i | 0 <= i < |rows| :: rows[i].track.id) == {i1.track.id, i2.track.id};
    assert Explode(rows, TrackArtistsOf) == i1.track.artists + i2.track.artists;
  }
}
