/**
 * The format catalogue of one video (`extract_video_data`): keep the formats
 * that carry both audio and video, fall back to a single placeholder when none
 * does, and order the result largest first.
 */
module Catalog {
  import opened Wrappers
  import opened Records
  import opened SizeSort

  /** Quality label of the placeholder format ("best available quality"). */
  const BestQualityLabel: string := "أفضل جودة متاحة"
  /** Title of a video whose metadata has none ("untitled"). */
  const UntitledLabel: string := "بدون عنوان"

  /**
   * The filter test: neither codec is the string "none". An absent codec key
   * reads as Python's `None`, which is not "none", so it passes.
   */
  predicate HasAudioAndVideo(f: RawFormat) {
    f.acodec != Some("none") && f.vcodec != Some("none")
  }

  /** A catalogue format whose `acodec` and `vcodec` are set and neither is "none". */
  predicate Muxed(f: Format) {
    f.acodec.Some? && f.acodec.value != "none" && f.vcodec.Some? && f.vcodec.value != "none"
  }

  /**
   * The record built for a raw format that passed the filter; `None` when
   * `format_id` or `ext` is absent, where the source raises a KeyError.
   */
  function ToFormat(f: RawFormat): Option<Format> {
    if f.formatId.None? || f.ext.None? then None
    else Some(Format(f.formatId.value, f.ext.value, f.formatNote.GetOr("N/A"),
                     f.resolution.GetOr("N/A"), f.filesize.GetOr(0),
                     Some(f.acodec.GetOr("N/A")), Some(f.vcodec.GetOr("N/A"))))
  }

  /** The filtered list the source's loop builds, or `None` if the loop raises. */
  function KeptFormats(raw: seq<RawFormat>): Option<seq<Format>> {
    if raw == [] then Some([])
    else
      var last := raw[|raw| - 1];
      match KeptFormats(raw[..|raw| - 1])
      case None => None
      case Some(fs) =>
        if !HasAudioAndVideo(last) then Some(fs)
        else match ToFormat(last)
          case None => None
          case Some(f) => Some(fs + [f])
  }

  /** The stand-in offered when no format carries audio and video. */
  function Placeholder(formatId: string): Format {
    Format(formatId, "mp4", BestQualityLabel, "auto", 0, None, None)
  }

  /** The catalogue: the kept formats, or the placeholder, sorted largest first. */
  function Normalised(info: RawInfo): Option<seq<Format>> {
    match KeptFormats(info.formats)
    case None => None
    case Some(fs) =>
      Some(SortBySize(if fs == [] then [Placeholder(info.formatId.GetOr("best"))] else fs))
  }

  /** The video record built from a URL's metadata; `None` when there is none or building it raises. */
  function VideoData(url: string, info: Option<RawInfo>): Option<Video> {
    match info
    case None => None
    case Some(i) =>
      match Normalised(i)
      case None => None
      case Some(fs) =>
        Some(Video(i.title.GetOr(UntitledLabel), url, i.thumbnail, i.duration.GetOr(0),
                   i.viewCount.GetOr(0), i.likeCount.GetOr(0), fs))
  }

  lemma {:induction false} KeptFormatsFailurePersists(raw: seq<RawFormat>, n: nat)
    requires n <= |raw|
    requires KeptFormats(raw[..n]) == None
    ensures KeptFormats(raw) == None
  {
    if n < |raw| {
      assert raw[..|raw| - 1][..n] == raw[..n];
      KeptFormatsFailurePersists(raw[..|raw| - 1], n);
    } else {
      assert raw[..n] == raw;
    }
  }

  /** The filter loop: append each format that carries audio and video. */
  method CollectFormats(raw: seq<RawFormat>) returns (r: Option<seq<Format>>)
    ensures r == KeptFormats(raw)
  {
    var formats: seq<Format> := [];
    for i := 0 to |raw|
      invariant KeptFormats(raw[..i]) == Some(formats)
    {
      assert raw[..i + 1][..i] == raw[..i];
      var f := raw[i];
      if HasAudioAndVideo(f) {
        if f.formatId.None? || f.ext.None? {
          KeptFormatsFailurePersists(raw, i + 1);
          return None;
        }
        formats := formats + [ToFormat(f).value];
      }
    }
    assert raw[..|raw|] == raw;
    r := Some(formats);
  }

  /** The pure part of `extract_video_data`, given the metadata the library returned. */
  method ExtractVideoData(url: string, info: Option<RawInfo>) returns (v: Option<Video>)
    ensures v == VideoData(url, info)
  {
    if info.None? {
      return None;
    }
    var i := info.value;
    var kept := CollectFormats(i.formats);
    if kept.None? {
      return None;
    }
    var formats := kept.value;
    if formats == [] {
      formats := [Placeholder(i.formatId.GetOr("best"))];
    }
    v := Some(Video(i.title.GetOr(UntitledLabel), url, i.thumbnail, i.duration.GetOr(0),
                    i.viewCount.GetOr(0), i.likeCount.GetOr(0), SortBySize(formats)));
  }

  /** The filter fails exactly when some format that passes the codec test lacks `format_id` or `ext`. */
  lemma {:induction false} KeptFormatsFails(raw: seq<RawFormat>)
    ensures KeptFormats(raw).None? <==>
      exists i :: 0 <= i < |raw| && HasAudioAndVideo(raw[i]) && ToFormat(raw[i]).None?
  {
    if raw != [] {
      var init := raw[..|raw| - 1];
      KeptFormatsFails(init);
      if KeptFormats(init).None? {
        var i :| 0 <= i < |init| && HasAudioAndVideo(init[i]) && ToFormat(init[i]).None?;
        assert raw[i] == init[i];
      } else {
        forall i | 0 <= i < |raw| - 1 ensures !(HasAudioAndVideo(raw[i]) && ToFormat(raw[i]).None?) {
          assert raw[i] == init[i];
        }
      }
    }
  }

  /**
   * On success the kept formats are exactly the conversions of the raw formats
   * that pass the codec test, in their original order: `idx` lists their positions.
   */
  lemma {:induction false} KeptFormatsExact(raw: seq<RawFormat>) returns (idx: seq<nat>)
    requires KeptFormats(raw).Some?
    ensures |idx| == |KeptFormats(raw).value|
    ensures forall k :: 0 <= k < |idx| ==> idx[k] < |raw|
    ensures forall k, l :: 0 <= k < l < |idx| ==> idx[k] < idx[l]
    ensures forall k :: 0 <= k < |idx| ==>
      HasAudioAndVideo(raw[idx[k]]) && ToFormat(raw[idx[k]]) == Some(KeptFormats(raw).value[k])
    ensures forall i :: 0 <= i < |raw| && HasAudioAndVideo(raw[i]) ==> i in idx
  {
    if raw == [] {
      idx := [];
    } else {
      var n := |raw| - 1;
      var init := raw[..n];
      var prev := KeptFormatsExact(init);
      forall k | 0 <= k < |prev| ensures raw[prev[k]] == init[prev[k]] { }
      if HasAudioAndVideo(raw[n]) {
        idx := prev + [n];
        assert KeptFormats(raw).value == KeptFormats(init).value + [ToFormat(raw[n]).value];
      } else {
        idx := prev;
      }
      forall i | 0 <= i < |raw| && HasAudioAndVideo(raw[i]) ensures i in idx {
        if i < n {
          assert init[i] == raw[i];
          assert i in prev;
        }
      }
    }
  }

  /** Every kept format has `acodec` and `vcodec` set and neither is "none" (an absent key reads "N/A"). */
  lemma {:induction false} KeptFormatsMuxed(raw: seq<RawFormat>)
    requires KeptFormats(raw).Some?
    ensures forall f :: f in KeptFormats(raw).value ==> Muxed(f)
  {
    var fs := KeptFormats(raw).value;
    var idx := KeptFormatsExact(raw);
    forall f | f in fs ensures Muxed(f) {
      var k :| 0 <= k < |fs| && fs[k] == f;
      assert HasAudioAndVideo(raw[idx[k]]) && ToFormat(raw[idx[k]]) == Some(f);
    }
  }

  /**
   * The catalogue is never empty and is sorted largest first. It is the
   * placeholder named after the metadata's `format_id` (or "best") when no
   * format qualifies; otherwise a stable reordering of the kept formats, all
   * of which carry audio and video.
   */
  lemma NormalisedCatalogue(info: RawInfo)
    requires KeptFormats(info.formats).Some?
    ensures Normalised(info).Some?
    ensures var fs := Normalised(info).value;
      && fs != []
      && SortedBySize(fs)
      && (KeptFormats(info.formats).value == [] ==> fs == [Placeholder(info.formatId.GetOr("best"))])
      && (KeptFormats(info.formats).value != [] ==>
            && multiset(fs) == multiset(KeptFormats(info.formats).value)
            && (forall k :: WithSize(fs, k) == WithSize(KeptFormats(info.formats).value, k))
            && (forall f :: f in fs ==> Muxed(f)))
  {
    var kept := KeptFormats(info.formats).value;
    var base := if kept == [] then [Placeholder(info.formatId.GetOr("best"))] else kept;
    SortBySizeCorrect(base);
    if kept != [] {
      KeptFormatsMuxed(info.formats);
      forall f | f in SortBySize(base) ensures Muxed(f) {
        assert f in multiset(SortBySize(base));
      }
    } else {
      assert SortBySize(base) == Insert(base[0], SortBySize([]));
    }
  }

  /** The normalisation fails exactly when the filter does. */
  lemma VideoDataFails(url: string, info: RawInfo)
    ensures VideoData(url, Some(info)).None? <==>
      exists i :: 0 <= i < |info.formats| && HasAudioAndVideo(info.formats[i]) && ToFormat(info.formats[i]).None?
  {
    KeptFormatsFails(info.formats);
  }

  /** A built video keeps its URL and has a non-empty catalogue sorted largest first. */
  lemma VideoDataCatalogue(url: string, info: Option<RawInfo>)
    requires VideoData(url, info).Some?
    ensures VideoData(url, info).value.url == url
    ensures VideoData(url, info).value.formats != []
    ensures SortedBySize(VideoData(url, info).value.formats)
  {
    NormalisedCatalogue(info.value);
  }
}
