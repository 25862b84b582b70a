/**
 * The aggregate download size (`calculate_total_size`): for each video, the
 * size of the format the user picked, or of its first (largest) format when
 * nothing was picked.
 */
module TotalSize {
  import opened Records
  import opened SizeSort

  /** Size of the first format with id `formatId`; 0 when there is none. */
  function SizeOfFormat(formats: seq<Format>, formatId: string): nat {
    if formats == [] then 0
    else if formats[0].formatId == formatId then formats[0].filesize
    else SizeOfFormat(formats[1..], formatId)
  }

  /**
   * The size counted for one video. An empty or absent selection map is
   * falsy in the source and behaves like a map without the video's url.
   */
  function ChosenSize(video: Video, selected: map<string, string>): nat {
    if video.url in selected then SizeOfFormat(video.formats, selected[video.url])
    else if video.formats != [] then video.formats[0].filesize
    else 0
  }

  /** The sum of the chosen sizes. */
  function Total(videos: seq<Video>, selected: map<string, string>): nat {
    if videos == [] then 0 else ChosenSize(videos[0], selected) + Total(videos[1..], selected)
  }

  /** The totals of two consecutive runs of videos add up. */
  lemma {:induction false} TotalAppend(a: seq<Video>, b: seq<Video>, selected: map<string, string>)
    ensures Total(a + b, selected) == Total(a, selected) + Total(b, selected)
  {
    if a != [] {
      assert (a + b)[1..] == a[1..] + b;
      TotalAppend(a[1..], b, selected);
    } else {
      assert a + b == b;
    }
  }

  /** The source's loop, with its inner search and `break`. */
  method CalculateTotalSize(videos: seq<Video>, selected: map<string, string>) returns (total: nat)
    ensures total == Total(videos, selected)
  {
    total := 0;
    for i := 0 to |videos|
      invariant total == Total(videos[..i], selected)
    {
      var video := videos[i];
      assert videos[..i + 1] == videos[..i] + [video];
      TotalAppend(videos[..i], [video], selected);
      assert Total([video], selected) == ChosenSize(video, selected);
      if video.url in selected {
        var formatId := selected[video.url];
        var j := 0;
        while j < |video.formats|
          invariant 0 <= j <= |video.formats|
          invariant SizeOfFormat(video.formats[j..], formatId) == SizeOfFormat(video.formats, formatId)
          invariant total == Total(videos[..i], selected)
        {
          if video.formats[j].formatId == formatId {
            total := total + video.formats[j].filesize;
            break;
          }
          assert video.formats[j..][1..] == video.formats[j + 1..];
          j := j + 1;
        }
        if j == |video.formats| {
          assert video.formats[j..] == [];
        }
      } else {
        if video.formats != [] {
          total := total + video.formats[0].filesize;
        }
      }
    }
    assert videos[..|videos|] == videos;
  }

  /** With no selection the total is the sum of the first format sizes; it is 0 for no videos. */
  lemma {:induction false} TotalWithoutSelection(videos: seq<Video>)
    ensures Total(videos, map[]) == 0 <==> forall i :: 0 <= i < |videos| ==> videos[i].formats == [] || videos[i].formats[0].filesize == 0
  {
    if videos != [] {
      TotalWithoutSelection(videos[1..]);
      forall i | 1 <= i < |videos| ensures videos[i] == videos[1..][i - 1] { }
    }
  }

  /** A picked id that no format has counts 0. */
  lemma {:induction false} SizeOfFormatNoMatch(formats: seq<Format>, formatId: string)
    requires forall i :: 0 <= i < |formats| ==> formats[i].formatId != formatId
    ensures SizeOfFormat(formats, formatId) == 0
  {
    if formats != [] {
      assert forall i :: 0 <= i < |formats[1..]| ==> formats[1..][i] == formats[i + 1];
      SizeOfFormatNoMatch(formats[1..], formatId);
    }
  }

  /** A picked id counts the size of the first format that has it. */
  lemma {:induction false} SizeOfFormatFirstMatch(formats: seq<Format>, formatId: string, i: nat)
    requires i < |formats| && formats[i].formatId == formatId
    requires forall j :: 0 <= j < i ==> formats[j].formatId != formatId
    ensures SizeOfFormat(formats, formatId) == formats[i].filesize
  {
    if i > 0 {
      assert forall j :: 0 <= j < i - 1 ==> formats[1..][j] == formats[j + 1];
      SizeOfFormatFirstMatch(formats[1..], formatId, i - 1);
    }
  }

  /** Taking one video out of the list takes its chosen size out of the total. */
  lemma TotalRemove(b: seq<Video>, j: nat, selected: map<string, string>)
    requires j < |b|
    ensures Total(b, selected) == ChosenSize(b[j], selected) + Total(b[..j] + b[j + 1..], selected)
  {
    assert b == b[..j] + [b[j]] + b[j + 1..];
    TotalAppend(b[..j] + [b[j]], b[j + 1..], selected);
    TotalAppend(b[..j], [b[j]], selected);
    TotalAppend(b[..j], b[j + 1..], selected);
  }

  lemma MultisetRemove(a: seq<Video>, b: seq<Video>, j: nat)
    requires a != [] && j < |b| && b[j] == a[0]
    requires multiset(a) == multiset(b)
    ensures multiset(a[1..]) == multiset(b[..j] + b[j + 1..])
  {
    assert b == b[..j] + [b[j]] + b[j + 1..];
    assert a == [a[0]] + a[1..];
    var rest := b[..j] + b[j + 1..];
    assert multiset(rest) == multiset(b[..j]) + multiset(b[j + 1..]);
    forall y ensures multiset(a[1..])[y] == multiset(rest)[y] {
      assert multiset(a)[y] == multiset(b)[y];
    }
  }

  /** The total does not depend on the order of the videos. */
  lemma {:induction false} TotalPermutation(a: seq<Video>, b: seq<Video>, selected: map<string, string>)
    requires multiset(a) == multiset(b)
    ensures Total(a, selected) == Total(b, selected)
    decreases |a|
  {
    if a == [] {
      assert |b| == |multiset(b)| == 0;
    } else {
      assert a[0] in multiset(b);
      var j :| 0 <= j < |b| && b[j] == a[0];
      TotalRemove(b, j, selected);
      MultisetRemove(a, b, j);
      TotalPermutation(a[1..], b[..j] + b[j + 1..], selected);
    }
  }

  lemma {:induction false} SizeOfFormatAtMostFirst(formats: seq<Format>, formatId: string)
    requires formats != [] && SortedBySize(formats)
    ensures SizeOfFormat(formats, formatId) <= formats[0].filesize
  {
    if |formats| > 1 && formats[0].formatId != formatId {
      assert SortedBySize(formats[1..]);
      SizeOfFormatAtMostFirst(formats[1..], formatId);
    }
  }

  /**
   * When every catalogue is sorted largest first, as the catalogue builder
   * guarantees, picking formats never raises the total above the default.
   */
  lemma {:induction false} TotalAtMostDefault(videos: seq<Video>, selected: map<string, string>)
    requires forall i :: 0 <= i < |videos| ==> SortedBySize(videos[i].formats)
    ensures Total(videos, selected) <= Total(videos, map[])
  {
    if videos != [] {
      var v := videos[0];
      if v.url in selected && v.formats != [] {
        SizeOfFormatAtMostFirst(v.formats, selected[v.url]);
      }
      forall i | 0 <= i < |videos[1..]| ensures SortedBySize(videos[1..][i].formats) {
        assert videos[1..][i] == videos[i + 1];
      }
      TotalAtMostDefault(videos[1..], selected);
    }
  }
}
