/**
 * The records the downloader passes around: the raw metadata the extraction
 * library returns for a URL, and the normalised video and format records the
 * rest of the application works with.
 */
module Records {
  import opened Wrappers

  /**
   * One entry of the library's `formats` list. A field is `None` when its key
   * is absent from the dictionary; `filesize` is a byte count.
   */
  datatype RawFormat = RawFormat(
    formatId: Option<string>,
    ext: Option<string>,
    formatNote: Option<string>,
    resolution: Option<string>,
    filesize: Option<nat>,
    acodec: Option<string>,
    vcodec: Option<string>)

  /**
   * One entry of a playlist's `entries` list: `Falsy` for an empty or `None`
   * entry, otherwise the entry with its `url` key, which may be absent.
   */
  datatype PlaylistEntry = Falsy | Entry(url: Option<string>)

  /**
   * The metadata the library returns for one URL. An absent `formats` key is
   * given as the empty list; `entries` is present only for a playlist.
   */
  datatype RawInfo = RawInfo(
    formats: seq<RawFormat>,
    formatId: Option<string>,
    title: Option<string>,
    thumbnail: Option<string>,
    duration: Option<nat>,
    viewCount: Option<nat>,
    likeCount: Option<nat>,
    entries: Option<seq<PlaylistEntry>>)

  /**
   * A selectable format of a video. `acodec` and `vcodec` are absent only in
   * the placeholder that stands in when no format carries audio and video.
   */
  datatype Format = Format(
    formatId: string,
    ext: string,
    quality: string,
    resolution: string,
    filesize: nat,
    acodec: Option<string>,
    vcodec: Option<string>)

  /** A video with its catalogue of formats, largest first. */
  datatype Video = Video(
    title: string,
    url: string,
    thumbnail: Option<string>,
    duration: nat,
    viewCount: nat,
    likeCount: nat,
    formats: seq<Format>)
}
