/**
 * The lookup of a pasted URL (`get_video_info`): a playlist expands to one
 * video per usable entry, anything else to the single video of the URL. The
 * extraction library is the parameter `probe`, which gives the metadata of a
 * URL or `None` when it returns nothing or raises.
 */
module VideoInfo {
  import opened Wrappers
  import opened Records
  import opened Catalog

  /** An entry that yields a video: truthy, with a url, and its extraction succeeds. */
  predicate Kept(e: PlaylistEntry, probe: string -> Option<RawInfo>) {
    e.Entry? && e.url.Some? && VideoData(e.url.value, probe(e.url.value)).Some?
  }

  /**
   * The list the entry loop builds. A truthy entry without `url` raises a
   * KeyError that aborts the whole lookup, hence `None`.
   */
  function Expanded(entries: seq<PlaylistEntry>, probe: string -> Option<RawInfo>): Option<seq<Video>> {
    if entries == [] then Some([])
    else
      var last := entries[|entries| - 1];
      match Expanded(entries[..|entries| - 1], probe)
      case None => None
      case Some(vs) =>
        match last
        case Falsy => Some(vs)
        case Entry(url) =>
          if url.None? then None
          else match VideoData(url.value, probe(url.value))
            case None => Some(vs)
            case Some(v) => Some(vs + [v])
  }

  /** Result of a lookup: an error, the videos of a playlist, or the one slot of a single video. */
  datatype Lookup = Failed | Playlist(videos: seq<Video>) | Single(video: Option<Video>)

  lemma {:induction false} ExpandedFailurePersists(entries: seq<PlaylistEntry>, probe: string -> Option<RawInfo>, n: nat)
    requires n <= |entries|
    requires Expanded(entries[..n], probe) == None
    ensures Expanded(entries, probe) == None
  {
    if n < |entries| {
      assert entries[..|entries| - 1][..n] == entries[..n];
      ExpandedFailurePersists(entries[..|entries| - 1], probe, n);
    } else {
      assert entries[..n] == entries;
    }
  }

  /** The playlist loop: extract each truthy entry and append the videos that come back. */
  method ExpandPlaylist(entries: seq<PlaylistEntry>, probe: string -> Option<RawInfo>)
    returns (r: Option<seq<Video>>)
    ensures r == Expanded(entries, probe)
  {
    var videos: seq<Video> := [];
    for i := 0 to |entries|
      invariant Expanded(entries[..i], probe) == Some(videos)
    {
      assert entries[..i + 1][..i] == entries[..i];
      var entry := entries[i];
      if entry.Entry? {
        if entry.url.None? {
          ExpandedFailurePersists(entries, probe, i + 1);
          return None;
        }
        var url := entry.url.value;
        var videoData := ExtractVideoData(url, probe(url));
        if videoData.Some? {
          videos := videos + [videoData.value];
        }
      }
    }
    assert entries[..|entries|] == entries;
    r := Some(videos);
  }

  /**
   * The lookup of one URL: no metadata is an error; a playlist is expanded;
   * otherwise the URL's own video, which may itself be missing.
   */
  method GetVideoInfo(url: string, probe: string -> Option<RawInfo>) returns (r: Lookup)
    ensures probe(url).None? ==> r == Failed
    ensures probe(url).Some? && probe(url).value.entries.Some? ==>
      r == (match Expanded(probe(url).value.entries.value, probe)
            case None => Failed
            case Some(vs) => Playlist(vs))
    ensures probe(url).Some? && probe(url).value.entries.None? ==> r == Single(VideoData(url, probe(url)))
  {
    var info := probe(url);
    if info.None? {
      return Failed;
    }
    if info.value.entries.Some? {
      var videos := ExpandPlaylist(info.value.entries.value, probe);
      if videos.None? {
        return Failed;
      }
      return Playlist(videos.value);
    }
    var video := ExtractVideoData(url, probe(url));
    r := Single(video);
  }

  /** Expansion fails exactly when some truthy entry has no `url`; failed extractions are skipped. */
  lemma {:induction false} ExpandedFails(entries: seq<PlaylistEntry>, probe: string -> Option<RawInfo>)
    ensures Expanded(entries, probe).None? <==> exists i :: 0 <= i < |entries| && entries[i] == Entry(None)
  {
    if entries != [] {
      var init := entries[..|entries| - 1];
      ExpandedFails(init, probe);
      if Expanded(init, probe).None? {
        var i :| 0 <= i < |init| && init[i] == Entry(None);
        assert entries[i] == init[i];
      } else {
        forall i | 0 <= i < |entries| - 1 ensures entries[i] != Entry(None) {
          assert entries[i] == init[i];
        }
      }
    }
  }

  /**
   * On success the videos are exactly those of the kept entries, in their
   * original relative order: `idx` lists the positions of the kept entries.
   */
  lemma {:induction false} ExpandedExact(entries: seq<PlaylistEntry>, probe: string -> Option<RawInfo>)
    returns (idx: seq<nat>)
    requires Expanded(entries, probe).Some?
    ensures |idx| == |Expanded(entries, probe).value|
    ensures forall k :: 0 <= k < |idx| ==> idx[k] < |entries|
    ensures forall k, l :: 0 <= k < l < |idx| ==> idx[k] < idx[l]
    ensures forall k :: 0 <= k < |idx| ==>
      Kept(entries[idx[k]], probe) &&
      VideoData(entries[idx[k]].url.value, probe(entries[idx[k]].url.value)) ==
        Some(Expanded(entries, probe).value[k])
    ensures forall i :: 0 <= i < |entries| && Kept(entries[i], probe) ==> i in idx
  {
    if entries == [] {
      idx := [];
    } else {
      var n := |entries| - 1;
      var init := entries[..n];
      var prev := ExpandedExact(init, probe);
      forall k | 0 <= k < |prev| ensures entries[prev[k]] == init[prev[k]] { }
      var vs := Expanded(init, probe).value;
      if Kept(entries[n], probe) {
        idx := prev + [n];
        var url := entries[n].url.value;
        assert Expanded(entries, probe).value == vs + [VideoData(url, probe(url)).value];
      } else {
        assert Expanded(entries, probe).value == vs;
        idx := prev;
      }
      forall i | 0 <= i < |entries| && Kept(entries[i], probe) ensures i in idx {
        if i < n {
          assert init[i] == entries[i];
          assert i in prev;
        }
      }
    }
  }
}
