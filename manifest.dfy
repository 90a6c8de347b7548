/** The per-file record the pipeline produces and the `tracks.json` manifest
    built from the successful ones. Timestamps are not part of this model. */
module TracksJson {
  import opened Wrappers
  import opened Metadata

  /** The outcome recorded for one quality: a URL (freshly uploaded, or
      already present and skipped), or a failed upload, which has no URL. */
  datatype Published = Published(url: string, skipped: bool) | UploadFailed

  /** What `processAudioFile` returns: the metadata, the base name, the saved
      cover's file name, and the outcome per quality name. */
  datatype ProcessedTrack = ProcessedTrack(
    meta: TrackMetadata,
    filename: string,
    coverArtFileName: Option<string>,
    qualities: map<string, Published>)

  /** `track.qualities[name]?.url`. */
  function UrlOf(qualities: map<string, Published>, name: string): Option<string> {
    if name in qualities && qualities[name].Published? then Some(qualities[name].url) else None
  }

  /** A URL that `||` accepts: present and non-empty. */
  predicate Truthy(url: Option<string>) {
    url.Some? && url.value != ""
  }

  /** `medium?.url || low?.url || high?.url || null`. */
  function StreamUrl(qualities: map<string, Published>): (r: Option<string>)
    ensures r.Some? ==> Truthy(r)
    ensures r.Some? ==> r == UrlOf(qualities, "medium") || r == UrlOf(qualities, "low") || r == UrlOf(qualities, "high")
    ensures r.None? <==>
              !Truthy(UrlOf(qualities, "medium")) && !Truthy(UrlOf(qualities, "low")) && !Truthy(UrlOf(qualities, "high"))
    // precedence: a usable URL of a better quality is never passed over
    ensures Truthy(UrlOf(qualities, "medium")) ==> r == UrlOf(qualities, "medium")
    ensures r == UrlOf(qualities, "high") && r != UrlOf(qualities, "medium") ==>
              !Truthy(UrlOf(qualities, "medium")) && (r == UrlOf(qualities, "low") || !Truthy(UrlOf(qualities, "low")))
  {
    var medium, low, high := UrlOf(qualities, "medium"), UrlOf(qualities, "low"), UrlOf(qualities, "high");
    if Truthy(medium) then medium
    else if Truthy(low) then low
    else if Truthy(high) then high
    else None
  }

  /** One manifest entry; `coverArt` is the saved cover's file name. */
  datatype ManifestEntry = ManifestEntry(
    id: nat,
    title: string,
    artist: string,
    album: string,
    genre: Option<string>,
    year: Option<int>,
    trackNo: Option<int>,
    filename: string,
    coverArt: Option<string>,
    low: Option<string>,
    medium: Option<string>,
    high: Option<string>,
    streamUrl: Option<string>)

  datatype Manifest = Manifest(totalTracks: nat, tracks: seq<ManifestEntry>)

  function Entry(t: ProcessedTrack, id: nat): ManifestEntry {
    ManifestEntry(
      id, t.meta.title, t.meta.artist, t.meta.album, t.meta.genre, t.meta.year, t.meta.trackNo,
      t.filename, t.coverArtFileName,
      UrlOf(t.qualities, "low"), UrlOf(t.qualities, "medium"), UrlOf(t.qualities, "high"),
      StreamUrl(t.qualities))
  }

  /** `generateTracksJson`: one entry per track, in order, with ids 1..n and
      the total equal to the number of tracks. */
  function BuildManifest(tracks: seq<ProcessedTrack>): (m: Manifest)
    ensures m.totalTracks == |tracks| == |m.tracks|
    ensures forall i :: 0 <= i < |tracks| ==> m.tracks[i].id == i + 1
    ensures forall i :: 0 <= i < |tracks| ==>
              && m.tracks[i].filename == tracks[i].filename
              && m.tracks[i].title == tracks[i].meta.title
              && m.tracks[i].artist == tracks[i].meta.artist
              && m.tracks[i].album == tracks[i].meta.album
              && m.tracks[i].genre == tracks[i].meta.genre
              && m.tracks[i].year == tracks[i].meta.year
              && m.tracks[i].trackNo == tracks[i].meta.trackNo
              && m.tracks[i].coverArt == tracks[i].coverArtFileName
              && m.tracks[i].low == UrlOf(tracks[i].qualities, "low")
              && m.tracks[i].medium == UrlOf(tracks[i].qualities, "medium")
              && m.tracks[i].high == UrlOf(tracks[i].qualities, "high")
              && m.tracks[i].streamUrl == StreamUrl(tracks[i].qualities)
  {
    Manifest(|tracks|, seq(|tracks|, i requires 0 <= i < |tracks| => Entry(tracks[i], i + 1)))
  }

  /** Manifest ids are distinct and increasing. */
  lemma ManifestIdsIncreasing(tracks: seq<ProcessedTrack>)
    ensures var m := BuildManifest(tracks);
            forall i, j :: 0 <= i < j < |m.tracks| ==> m.tracks[i].id < m.tracks[j].id
  {
  }

  /** With only the `low` and `medium` qualities configured, no entry has a
      `high` URL, and the stream URL falls back from medium to low. */
  lemma StreamUrlWithoutHigh(qualities: map<string, Published>)
    requires qualities.Keys <= {"low", "medium"}
    ensures UrlOf(qualities, "high").None?
    ensures StreamUrl(qualities) ==
              if Truthy(UrlOf(qualities, "medium")) then UrlOf(qualities, "medium")
              else if Truthy(UrlOf(qualities, "low")) then UrlOf(qualities, "low")
              else None
  {
    assert "high" !in qualities by {
      assert "high" != "low" && "high" != "medium";
    }
  }

  /** A failed upload leaves no URL: when `medium` failed and `low` was
      published, the stream URL is the low one. */
  lemma FailedMediumFallsBackToLow(low: string)
    requires low != ""
    ensures StreamUrl(map["low" := Published(low, false), "medium" := UploadFailed]) == Some(low)
  {
    var q := map["low" := Published(low, false), "medium" := UploadFailed];
    assert "high" !in q by {
      assert "high" != "low" && "high" != "medium";
    }
  }
}
