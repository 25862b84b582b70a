/**
 * The session's selection: the list of videos ticked for download, kept in
 * the order they were ticked, and the format picked for each video url.
 */
module Selection {
  import opened Wrappers
  import opened Records
  import opened Catalog
  import opened TotalSize

  predicate NoDuplicates(s: seq<Video>) {
    forall i, j :: 0 <= i < j < |s| ==> s[i] != s[j]
  }

  /** Python's `list.remove`: drop the first occurrence of `v`. */
  function RemoveFirst(s: seq<Video>, v: Video): seq<Video> {
    if s == [] then []
    else if s[0] == v then s[1..]
    else [s[0]] + RemoveFirst(s[1..], v)
  }

  /** The videos of `s` other than `v`, in their order in `s`. */
  function Others(s: seq<Video>, v: Video): seq<Video> {
    if s == [] then [] else (if s[0] == v then [] else [s[0]]) + Others(s[1..], v)
  }

  /**
   * The list after its checkbox reads `isSelected`: append the video if it
   * is ticked and absent, remove it if it is unticked and present. Videos
   * are compared as whole records, as the source does.
   */
  function Toggled(s: seq<Video>, v: Video, isSelected: bool): seq<Video> {
    if isSelected && v !in s then s + [v]
    else if !isSelected && v in s then RemoveFirst(s, v)
    else s
  }

  /**
   * The format id passed to the download: the picked one, else the id of
   * the first format. The source evaluates `formats[0]` even when a format
   * was picked, so a video without formats is an error (`None`) either way.
   */
  function FormatForDownload(selectedFormats: map<string, string>, video: Video): Option<string> {
    if video.formats == [] then None
    else if video.url in selectedFormats then Some(selectedFormats[video.url])
    else Some(video.formats[0].formatId)
  }

  lemma {:induction false} OthersAppend(s: seq<Video>, v: Video)
    ensures Others(s + [v], v) == Others(s, v)
  {
    if s == [] {
      assert [v][1..] == [];
    } else {
      assert (s + [v])[1..] == s[1..] + [v];
      OthersAppend(s[1..], v);
    }
  }

  lemma {:induction false} RemoveFirstOthers(s: seq<Video>, v: Video)
    requires NoDuplicates(s)
    ensures Others(RemoveFirst(s, v), v) == Others(s, v)
  {
    if s != [] {
      assert NoDuplicates(s[1..]);
      if s[0] == v {
        assert v !in s[1..];
        OthersAbsent(s[1..], v);
      } else {
        RemoveFirstOthers(s[1..], v);
        var r := RemoveFirst(s[1..], v);
        assert ([s[0]] + r)[1..] == r;
      }
    }
  }

  lemma {:induction false} RemoveFirstSubset(s: seq<Video>, v: Video, x: Video)
    requires x in RemoveFirst(s, v)
    ensures x in s
  {
    if s != [] && s[0] != v && x != s[0] {
      assert RemoveFirst(s, v) == [s[0]] + RemoveFirst(s[1..], v);
      RemoveFirstSubset(s[1..], v, x);
    }
  }

  lemma NoDuplicatesCons(x: Video, r: seq<Video>)
    requires NoDuplicates(r) && x !in r
    ensures NoDuplicates([x] + r)
  {
    var t := [x] + r;
    forall i, j | 0 <= i < j < |t| ensures t[i] != t[j] {
      assert t[j] == r[j - 1];
      if i > 0 {
        assert t[i] == r[i - 1];
      }
    }
  }

  lemma {:induction false} RemoveFirstNoDuplicates(s: seq<Video>, v: Video)
    requires NoDuplicates(s)
    ensures NoDuplicates(RemoveFirst(s, v))
  {
    if s != [] && s[0] != v {
      assert NoDuplicates(s[1..]);
      RemoveFirstNoDuplicates(s[1..], v);
      var r := RemoveFirst(s[1..], v);
      if s[0] in r {
        RemoveFirstSubset(s[1..], v, s[0]);
      }
      NoDuplicatesCons(s[0], r);
    }
  }

  lemma {:induction false} RemoveFirstRemoves(s: seq<Video>, v: Video)
    requires NoDuplicates(s)
    ensures v !in RemoveFirst(s, v)
  {
    if s != [] {
      assert NoDuplicates(s[1..]);
      if s[0] == v {
        assert forall i :: 0 <= i < |s[1..]| ==> s[1..][i] == s[i + 1];
      } else {
        RemoveFirstRemoves(s[1..], v);
      }
    }
  }

  lemma RemoveFirstUnique(s: seq<Video>, v: Video)
    requires NoDuplicates(s)
    ensures NoDuplicates(RemoveFirst(s, v))
    ensures v !in RemoveFirst(s, v)
    ensures Others(RemoveFirst(s, v), v) == Others(s, v)
  {
    RemoveFirstNoDuplicates(s, v);
    RemoveFirstOthers(s, v);
    RemoveFirstRemoves(s, v);
  }

  lemma {:induction false} OthersAbsent(s: seq<Video>, v: Video)
    requires v !in s
    ensures Others(s, v) == s
  {
    if s != [] {
      OthersAbsent(s[1..], v);
      assert s == [s[0]] + s[1..];
    }
  }

  /**
   * A toggle keeps the list free of duplicates; afterwards the video is in
   * the list exactly when it is ticked; the other videos and their order are
   * untouched; and toggling to the current state changes nothing.
   */
  lemma ToggledSelection(s: seq<Video>, v: Video, isSelected: bool)
    requires NoDuplicates(s)
    ensures NoDuplicates(Toggled(s, v, isSelected))
    ensures v in Toggled(s, v, isSelected) <==> isSelected
    ensures Others(Toggled(s, v, isSelected), v) == Others(s, v)
    ensures (v in s <==> isSelected) ==> Toggled(s, v, isSelected) == s
  {
    if isSelected && v !in s {
      OthersAppend(s, v);
    } else if !isSelected && v in s {
      RemoveFirstUnique(s, v);
    }
  }

  /** Ticking or unticking twice is the same as once. */
  lemma ToggledIdempotent(s: seq<Video>, v: Video, isSelected: bool)
    requires NoDuplicates(s)
    ensures Toggled(Toggled(s, v, isSelected), v, isSelected) == Toggled(s, v, isSelected)
  {
    ToggledSelection(s, v, isSelected);
    ToggledSelection(Toggled(s, v, isSelected), v, isSelected);
  }

  /**
   * After picking `formatId` for `url`, a video with that url downloads in
   * that format, and every other video downloads as before.
   */
  lemma FormatAfterUpsert(selectedFormats: map<string, string>, url: string, formatId: string, video: Video)
    requires video.formats != []
    ensures FormatForDownload(selectedFormats[url := formatId], video) ==
      if video.url == url then Some(formatId) else FormatForDownload(selectedFormats, video)
  {
  }

  /** A video built by the catalogue always has a download format, picked or not. */
  lemma CatalogueVideoDownloadable(selectedFormats: map<string, string>, url: string, info: Option<RawInfo>)
    requires VideoData(url, info).Some?
    ensures FormatForDownload(selectedFormats, VideoData(url, info).value).Some?
    ensures url !in selectedFormats ==>
      FormatForDownload(selectedFormats, VideoData(url, info).value) == Some(VideoData(url, info).value.formats[0].formatId)
  {
    VideoDataCatalogue(url, info);
  }

  /** The selection state of one session. */
  class SelectionState {
    var selectedVideos: seq<Video>
    var selectedFormats: map<string, string>

    ghost predicate Valid()
      reads this
    {
      NoDuplicates(selectedVideos)
    }

    constructor ()
      ensures Valid()
      ensures selectedVideos == [] && selectedFormats == map[]
    {
      selectedVideos := [];
      selectedFormats := map[];
    }

    /** Record the checkbox of `video`: append when ticked and absent, remove when unticked and present. */
    method Toggle(video: Video, isSelected: bool)
      requires Valid()
      modifies this
      ensures Valid()
      ensures selectedVideos == Toggled(old(selectedVideos), video, isSelected)
      ensures video in selectedVideos <==> isSelected
      ensures Others(selectedVideos, video) == Others(old(selectedVideos), video)
      ensures (video in old(selectedVideos) <==> isSelected) ==> selectedVideos == old(selectedVideos)
      ensures selectedFormats == old(selectedFormats)
    {
      ToggledSelection(selectedVideos, video, isSelected);
      if isSelected && video !in selectedVideos {
        selectedVideos := selectedVideos + [video];
      } else if !isSelected && video in selectedVideos {
        selectedVideos := RemoveFirst(selectedVideos, video);
      }
    }

    /** Record the format picked for `url`, replacing any earlier pick. */
    method SetFormat(url: string, formatId: string)
      requires Valid()
      modifies this
      ensures Valid()
      ensures selectedFormats == old(selectedFormats)[url := formatId]
      ensures forall u :: u != url ==> (u in selectedFormats <==> u in old(selectedFormats))
      ensures forall u :: u != url && u in selectedFormats ==> selectedFormats[u] == old(selectedFormats)[u]
      ensures forall v: Video :: v.url == url && v.formats != [] ==> FormatForDownload(selectedFormats, v) == Some(formatId)
      ensures selectedVideos == old(selectedVideos)
    {
      selectedFormats := selectedFormats[url := formatId];
    }

    /**
     * The total shown above the list: over all videos when "select all" is
     * ticked, else over the selected ones; nothing is shown when neither applies.
     */
    method DisplayedTotal(videos: seq<Video>, selectAll: bool) returns (t: Option<nat>)
      ensures t.None? <==> !selectAll && selectedVideos == []
      ensures t.Some? ==> t.value == Total(if selectAll then videos else selectedVideos, selectedFormats)
    {
      if selectAll || selectedVideos != [] {
        var total := CalculateTotalSize(if selectAll then videos else selectedVideos, selectedFormats);
        t := Some(total);
      } else {
        t := None;
      }
    }
  }
}
