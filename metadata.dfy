/** Tag extraction with fallback. The tag parser is an oracle: it either fails
    or returns the tags it found, each of which may be absent. */
module Metadata {
  import opened Wrappers
  import MediaPaths

  /** An embedded picture; only its bytes are written out. */
  datatype Picture = Picture(data: seq<bv8>)

  /** The `common` tags the parser reports. `None` is an absent tag. */
  datatype CommonTags = CommonTags(
    title: Option<string>,
    artist: Option<string>,
    album: Option<string>,
    genre: Option<seq<string>>,
    year: Option<int>,
    trackNo: Option<int>,
    pictures: Option<seq<Picture>>)

  /** What `extractMetadata` returns. An absent `genre`, `year`, `trackNo` or
      `coverArt` is `None`. */
  datatype TrackMetadata = TrackMetadata(
    title: string,
    artist: string,
    album: string,
    genre: Option<string>,
    year: Option<int>,
    trackNo: Option<int>,
    coverArt: Option<Picture>)

  const UnknownArtist := "Unknown Artist"
  const UnknownAlbum := "Unknown Album"
  const UnknownGenre := "Unknown Genre"

  /** `value || fallback` on a string tag: absent and empty tags are falsy. */
  function OrElse(tag: Option<string>, fallback: string): (r: string)
    ensures tag.Some? && tag.value != "" ==> r == tag.value
    ensures tag.None? || tag.value == "" ==> r == fallback
  {
    if tag.Some? && tag.value != "" then tag.value else fallback
  }

  /** `genre ? genre[0] : 'Unknown Genre'`: a present list is truthy even when
      empty, and then its first element is undefined. */
  function FirstGenre(genre: Option<seq<string>>): Option<string> {
    match genre
    case None => Some(UnknownGenre)
    case Some(list) => if list == [] then None else Some(list[0])
  }

  /** `picture?.[0]`. */
  function FirstPicture(pictures: Option<seq<Picture>>): Option<Picture> {
    if pictures.Some? && pictures.value != [] then Some(pictures.value[0]) else None
  }

  /** The record used when the parser fails. */
  function Fallback(audioFile: string): TrackMetadata {
    TrackMetadata(MediaPaths.Stem(audioFile), UnknownArtist, UnknownAlbum, Some(UnknownGenre), None, None, None)
  }

  /** `extractMetadata` of the input file `audioFile`: `None` is a parser
      failure, which yields the fallback record. */
  function ExtractMetadata(parsed: Option<CommonTags>, audioFile: string): (r: TrackMetadata)
    ensures parsed.None? ==> r == Fallback(audioFile)
    ensures r.artist != "" && r.album != ""
    ensures r.title != "" || MediaPaths.Stem(audioFile) == ""
    ensures parsed.Some? ==> r.year == parsed.value.year && r.trackNo == parsed.value.trackNo
    // each string tag is kept when present and non-empty, else replaced by its placeholder
    ensures parsed.Some? ==> r.title == OrElse(parsed.value.title, MediaPaths.Stem(audioFile))
    ensures parsed.Some? ==> r.artist == OrElse(parsed.value.artist, UnknownArtist)
    ensures parsed.Some? ==> r.album == OrElse(parsed.value.album, UnknownAlbum)
    // the genre is the placeholder without a list, the first entry of a
    // non-empty list, and undefined for an empty list
    ensures parsed.Some? && parsed.value.genre.None? ==> r.genre == Some(UnknownGenre)
    ensures parsed.Some? && parsed.value.genre.Some? && parsed.value.genre.value != [] ==>
              r.genre == Some(parsed.value.genre.value[0])
    ensures r.genre.None? <==> parsed.Some? && parsed.value.genre == Some([])
    // the cover is the first embedded picture, if any
    ensures r.coverArt.Some? <==> parsed.Some? && parsed.value.pictures.Some? && parsed.value.pictures.value != []
    ensures r.coverArt.Some? ==> r.coverArt.value == parsed.value.pictures.value[0]
  {
    match parsed
    case None => Fallback(audioFile)
    case Some(tags) =>
      TrackMetadata(
        OrElse(tags.title, MediaPaths.Stem(audioFile)),
        OrElse(tags.artist, UnknownArtist),
        OrElse(tags.album, UnknownAlbum),
        FirstGenre(tags.genre),
        tags.year,
        tags.trackNo,
        FirstPicture(tags.pictures))
  }

  /** Tags with nothing in them. */
  const NoTags := CommonTags(None, None, None, None, None, None, None)

  /** A parser failure and a parse that finds no tags give the same record. */
  lemma FailureMatchesEmptyTags(audioFile: string)
    ensures ExtractMetadata(None, audioFile) == ExtractMetadata(Some(NoTags), audioFile)
  {
  }

}
