/**
 * One run of the transform job against the pipeline's bucket: the three tables are
 * appended to their output datasets, then the listed raw json files are archived.
 */
module GlueJob {
  import opened Wrappers
  import opened Dates
  import opened Spotify
  import opened Storage

  /** The bucket: its objects by key and the three append-only output datasets. */
  class Bucket {
    var objects: map<string, Blob>
    var albumData: seq<Album<Option<Date>>>
    var artistData: seq<Artist>
    var songsData: seq<Song<Option<Date>>>

    constructor (objects: map<string, Blob>)
      ensures this.objects == objects
      ensures albumData == [] && artistData == [] && songsData == []
    {
      this.objects := objects;
      albumData, artistData, songsData := [], [], [];
    }

    /** `write.mode("append")` of the album rows: earlier rows stay, the new ones follow. */
    method AppendAlbums(rows: seq<Album<Option<Date>>>)
      modifies this
      ensures albumData == old(albumData) + rows
      ensures objects == old(objects) && artistData == old(artistData) && songsData == old(songsData)
    {
      albumData := albumData + rows;
    }

    method AppendArtists(rows: seq<Artist>)
      modifies this
      ensures artistData == old(artistData) + rows
      ensures objects == old(objects) && albumData == old(albumData) && songsData == old(songsData)
    {
      artistData := artistData + rows;
    }

    method AppendSongs(rows: seq<Song<Option<Date>>>)
      modifies this
      ensures songsData == old(songsData) + rows
      ensures objects == old(objects) && albumData == old(albumData) && artistData == old(artistData)
    {
      songsData := songsData + rows;
    }

    /**
     * The archive loop over one listing of the landing prefix: each json key is copied to
     * the archive prefix under its file name and then deleted; other keys are skipped.
     */
    method ArchiveProcessed(listing: seq<string>)
      requires IsListing(objects, listing)
      modifies this
      ensures objects == ArchivePass(old(objects), listing)
      ensures forall i :: 0 <= i < |listing| && IsJson(listing[i]) ==> listing[i] !in objects
      ensures forall i :: 0 <= i < |listing| && !IsJson(listing[i]) ==>
                listing[i] in objects && objects[listing[i]] == old(objects)[listing[i]]
      ensures albumData == old(albumData) && artistData == old(artistData) && songsData == old(songsData)
    {
      for i := 0 to |listing|
        invariant IsListing(objects, listing[i..])
        invariant ArchivePass(objects, listing[i..]) == ArchivePass(old(objects), listing)
        invariant albumData == old(albumData) && artistData == old(artistData) && songsData == old(songsData)
      {
        var key := listing[i];
        ghost var before := objects;
        if IsJson(key) {
          objects := objects[ArchiveKey(key) := objects[key]];
          objects := objects - {key};
        }
        assert listing[i..][0] == key && listing[i..][1..] == listing[i + 1..];
        ListingAfterStep(before, listing[i..]);
      }
      forall i | 0 <= i < |listing| && IsJson(listing[i]) ensures listing[i] !in objects {
        JsonKeysRemoved(old(objects), listing, i);
      }
      forall i | 0 <= i < |listing| && !IsJson(listing[i])
        ensures listing[i] in objects && objects[listing[i]] == old(objects)[listing[i]]
      {
        NonJsonKeysUntouched(old(objects), listing, i);
      }
    }

    /**
     * The whole job: explode the records read from the landing area, append the album,
     * artist and song tables, then archive the listed json files.
     */
    method Run(records: seq<PlaylistJson>, listing: seq<string>)
      requires IsListing(objects, listing)
      modifies this
      ensures albumData == old(albumData) + AlbumTable(ExplodeItems(records))
      ensures artistData == old(artistData) + ArtistTable(ExplodeItems(records))
      ensures songsData == old(songsData) + SongTable(ExplodeItems(records))
      ensures objects == ArchivePass(old(objects), listing)
    {
      var rows := ExplodeItems(records);
      AppendAlbums(AlbumTable(rows));
      AppendArtists(ArtistTable(rows));
      AppendSongs(SongTable(rows));
      ArchiveProcessed(listing);
    }
  }
}
