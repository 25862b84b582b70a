# Video downloader: catalogue, size and selection model

A Dafny model of the bookkeeping inside a Streamlit video downloader
(`streamlit_app.py`). The app asks an extraction library (yt-dlp) for a URL's
metadata. For each video it builds a catalogue of the formats that carry both
audio and video, sorted largest first. It expands playlists entry by entry,
keeps a per-session list of ticked videos and a `url → format_id` map, and
shows the total download size of the selection.

The extraction library appears as the parameter `probe: string -> Option<RawInfo>`.
It returns a URL's metadata, or `None` when the library returns nothing or
raises. Everything else is modelled from the source:

- `Records`: the raw metadata (`RawInfo`, `RawFormat`, `PlaylistEntry`) and
  the records built from it (`Video`, `Format`). An absent dictionary key is `None`.
- `SizeSort`: `sorted(..., key=filesize, reverse=True)` as a stable insertion sort.
  It is proved sorted, a permutation and stable, and it is the only arrangement
  with those properties.
- `Catalog`: the filter loop of `extract_video_data` (a method proved against
  the function `KeptFormats`), the placeholder fallback and the sort.
- `VideoInfo`: the playlist entry loop and the two branches of `get_video_info`.
- `TotalSize`: `calculate_total_size`, a nested loop with `break`, proved
  against the recursive sum `Total`.
- `Selection`: a class holding the ticked-video list and the format map, with
  toggle, upsert, the default-format lookup and the displayed total.

Points where the source's behaviour is easy to misread; the model follows the code:
- Videos in the selection are compared as whole records, not by url.
- A format whose `acodec` or `vcodec` key is absent passes the filter, because
  Python's `None` is not the string `'none'`.
- A picked `format_id` that a video lacks adds 0 to the total; it does not
  fall back to the first format.
- The default format `formats[0]['format_id']` is evaluated even when a format
  was picked, so a video without formats cannot be downloaded either way.

## Model

| member | source | states |
|---|---|---|
| SizeSort.SortBySizeCorrect | streamlit_app.py:131 | the sorted catalogue is non-increasing in filesize, a permutation of its input (same multiset and length), and keeps the formats of each size in input order |
| SizeSort.SortBySizeIsStableSort | streamlit_app.py:131 | any size-sorted list that keeps each size's formats in input order equals the sort's result, so the sort is exactly a stable descending sort |
| Catalog.CollectFormats | streamlit_app.py:94-109 | the filter loop returns exactly `KeptFormats(raw)`: the converted formats that pass the codec test, in order, or failure when such a format lacks `format_id` or `ext` |
| Catalog.ExtractVideoData | streamlit_app.py:86-132 | building a video from metadata gives exactly `VideoData(url, info)`: no video without metadata or on a failed filter, else the kept formats or placeholder, sorted, with the `.get` defaults for title, duration and counts |
| Catalog.KeptFormatsFails | streamlit_app.py:96-99 | the filter fails if and only if some format passing the codec test has no `format_id` or no `ext` |
| Catalog.KeptFormatsExact | streamlit_app.py:96-109 | on success the kept list is the conversion of the raw formats passing the codec test, at strictly increasing positions, and every passing raw format is among them |
| Catalog.KeptFormatsMuxed | streamlit_app.py:97 | every kept format has `acodec` and `vcodec` set and neither is "none" (an absent key reads "N/A") |
| Catalog.NormalisedCatalogue | streamlit_app.py:111-131 | the catalogue is never empty and is sorted largest first; with no qualifying format it is exactly one placeholder of size 0 named by the metadata's `format_id` or "best"; otherwise it is a stable permutation of the kept formats, all with both codecs |
| Catalog.VideoDataFails | streamlit_app.py:88-135 | given metadata, building the video fails if and only if a format passing the codec test lacks `format_id` or `ext` |
| Catalog.VideoDataCatalogue | streamlit_app.py:124-131 | a built video carries the requested url and a non-empty catalogue sorted largest first |
| VideoInfo.ExpandPlaylist | streamlit_app.py:70-77 | the entry loop returns exactly `Expanded(entries, probe)` |
| VideoInfo.GetVideoInfo | streamlit_app.py:60-84 | no metadata is a failure; a playlist gives its expanded videos or fails when the expansion fails; any other URL gives the one slot holding that URL's video, which may be empty |
| VideoInfo.ExpandedFails | streamlit_app.py:72-74 | expansion fails if and only if some truthy entry has no `url`; falsy entries and failed extractions never make it fail |
| VideoInfo.ExpandedExact | streamlit_app.py:72-77 | on success the videos are those of the truthy entries whose extraction succeeded, at strictly increasing entry positions, and every such entry is among them |
| TotalSize.CalculateTotalSize | streamlit_app.py:44-57 | the nested loop with its inner search and `break` returns exactly `Total(videos, selected)` |
| TotalSize.TotalAppend | streamlit_app.py:46-57 | the total of two consecutive runs of videos is the sum of their totals |
| TotalSize.TotalPermutation | streamlit_app.py:46-57 | the total is the same for any reordering of the videos |
| TotalSize.SizeOfFormatFirstMatch | streamlit_app.py:49-53 | a picked id counts the size of the first format with that id, even when later formats share it |
| TotalSize.SizeOfFormatNoMatch | streamlit_app.py:49-53 | a picked id that no format of the video has counts 0 |
| TotalSize.TotalWithoutSelection | streamlit_app.py:54-56 | with no picks the total is 0 exactly when every video has no formats or a first format of size 0, and in particular for no videos |
| TotalSize.TotalAtMostDefault | streamlit_app.py:48-56 | when every catalogue is sorted largest first, any set of picks gives a total no larger than the default total |
| Selection.ToggledSelection | streamlit_app.py:329-332 | a toggle keeps the list duplicate-free; afterwards the video is present exactly when ticked; the other videos keep their order; a toggle to the current state changes nothing |
| Selection.ToggledIdempotent | streamlit_app.py:329-332 | applying the same toggle twice gives the same list as applying it once |
| Selection.FormatAfterUpsert | streamlit_app.py:359 | after the upsert, a video with that url downloads in the new format and every other video downloads as before |
| Selection.CatalogueVideoDownloadable | streamlit_app.py:270-273 | a video built by the catalogue always has a download format, which is its first format's id when its url has no pick |
| Selection.SelectionState.constructor | streamlit_app.py:16-21 | a session starts with no ticked videos and no picked formats |
| Selection.SelectionState.Toggle | streamlit_app.py:329-332 | the list becomes `Toggled(old list, video, isSelected)` and stays duplicate-free; the video is present exactly when ticked; other videos are untouched; the format map is unchanged |
| Selection.SelectionState.SetFormat | streamlit_app.py:359 | the map gains or replaces only the entry for `url`; that url now downloads in the picked format; the ticked list is unchanged |
| Selection.SelectionState.DisplayedTotal | streamlit_app.py:253-257 | no total is shown when "select all" is off and nothing is ticked; otherwise the total is over all videos or over the ticked ones |

## Left out

- The extraction library (`extract_info`, `download`) and its options, format selector strings and FFmpeg postprocessors: the library is the parameter `probe`. Because `probe` is a function, the second lookup of a URL inside `extract_video_data` sees the same metadata as the first.
- `download_video` and `update_progress`: these are a foreign download call and a float progress fraction. The "download selected" and "download all" loops (lines 267-302) only combine `FormatForDownload` with that call.
- The format dropdown (lines 347-357): it maps display labels to ids, and when two labels are equal the later id wins. `SetFormat` takes the id the dropdown produced.
- The `fps` field (a float) and `filesize_readable` (the `humanize` library) of a format; `humanize` formatting of sizes and counts.
- A `filesize` key that is present but `None`: sizes are naturals and an absent size is 0. Likewise a key present with value `None` is treated as absent, so `.get` yields its default. The source would return `None` there.
- A dictionary key present with value `None` is modelled as an absent key. Besides `.get` returning `None` instead of its default, this changes outcomes in these places:
  - `format_id` or `ext` equal to `None` in a kept format (lines 99-100): the source keeps the format with a `None` field; `Catalog.ToFormat` fails the whole video as for a missing key.
  - `url` equal to `None` in a truthy playlist entry (line 74): the source calls `extract_video_data(None)`, which fails inside its own `try`, so the entry is skipped; `VideoInfo.Expanded` fails the whole lookup as for a missing key.
  - `entries` present with value `None` (lines 70-72): the source's `for` raises and the lookup fails; the model treats the URL as a single video.
  - `formats` present with value `None` (line 96): the source's `for` raises and the video fails; the model gives the placeholder catalogue.
- `duration` (line 128) and the view and like counts can be floats in the library's metadata; they are modelled as naturals.
- Streamlit rendering, widgets, `st.session_state` plumbing, `st.cache_data`, error and warning messages, and the "select all" checkbox as a widget. Only its effect on the displayed total is modelled.
- Thumbnail download and image decoding, the download-folder creation and cleanup, timestamped file names, and opening files for the save button: network, filesystem and clock.
- The default `selected_formats=None` of `calculate_total_size`: `Total` takes a map, and `None` behaves like the empty map.
