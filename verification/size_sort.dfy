/**
 * Python's `sorted(formats, key=lambda x: x['filesize'], reverse=True)`:
 * a stable sort, largest file first, formats of equal size kept in their
 * original order.
 */
module SizeSort {
  import opened Records

  /** Non-increasing by filesize. */
  predicate SortedBySize(s: seq<Format>) {
    forall i, j :: 0 <= i < j < |s| ==> s[i].filesize >= s[j].filesize
  }

  /** The formats of `s` whose filesize is `k`, in their order in `s`. */
  function WithSize(s: seq<Format>, k: nat): seq<Format> {
    if s == [] then []
    else (if s[0].filesize == k then [s[0]] else []) + WithSize(s[1..], k)
  }

  /**
   * Puts `x` in front of the first format no larger than it, so that `x`,
   * which came earlier in the input, stays ahead of formats of equal size.
   */
  function Insert(x: Format, s: seq<Format>): seq<Format> {
    if s == [] || s[0].filesize <= x.filesize then [x] + s
    else [s[0]] + Insert(x, s[1..])
  }

  /** Stable insertion sort, largest first. */
  function SortBySize(s: seq<Format>): seq<Format> {
    if s == [] then [] else Insert(s[0], SortBySize(s[1..]))
  }

  lemma {:induction false} InsertPermutation(x: Format, s: seq<Format>)
    ensures multiset(Insert(x, s)) == multiset(s) + multiset{x}
  {
    if s != [] && s[0].filesize > x.filesize {
      InsertPermutation(x, s[1..]);
      assert s == [s[0]] + s[1..];
    }
  }

  lemma {:induction false} InsertBounded(x: Format, s: seq<Format>, b: nat)
    requires x.filesize <= b
    requires forall i :: 0 <= i < |s| ==> s[i].filesize <= b
    ensures forall i :: 0 <= i < |Insert(x, s)| ==> Insert(x, s)[i].filesize <= b
  {
    if s != [] && s[0].filesize > x.filesize {
      InsertBounded(x, s[1..], b);
      var r := [s[0]] + Insert(x, s[1..]);
      assert Insert(x, s) == r;
      forall i | 0 < i < |r| ensures r[i].filesize <= b {
        assert r[i] == Insert(x, s[1..])[i - 1];
      }
    }
  }

  lemma {:induction false} InsertSorted(x: Format, s: seq<Format>)
    requires SortedBySize(s)
    ensures SortedBySize(Insert(x, s))
  {
    if s == [] || s[0].filesize <= x.filesize {
      var r := [x] + s;
      assert Insert(x, s) == r;
      forall i, j | 0 <= i < j < |r| ensures r[i].filesize >= r[j].filesize {
        assert r[j] == s[j - 1];
        if i > 0 {
          assert r[i] == s[i - 1];
        } else if j > 1 {
          assert s[0].filesize >= s[j - 1].filesize;
        }
      }
    } else {
      var rest := Insert(x, s[1..]);
      var r := [s[0]] + rest;
      assert Insert(x, s) == r;
      assert SortedBySize(s[1..]);
      InsertSorted(x, s[1..]);
      InsertBounded(x, s[1..], s[0].filesize);
      forall i, j | 0 <= i < j < |r| ensures r[i].filesize >= r[j].filesize {
        assert r[j] == rest[j - 1];
        if i > 0 {
          assert r[i] == rest[i - 1];
        }
      }
    }
  }

  lemma {:induction false} InsertWithSize(x: Format, s: seq<Format>, k: nat)
    ensures WithSize(Insert(x, s), k) == (if x.filesize == k then [x] else []) + WithSize(s, k)
  {
    if s == [] || s[0].filesize <= x.filesize {
      var r := [x] + s;
      assert Insert(x, s) == r;
      assert r[0] == x && r[1..] == s;
      assert WithSize(r, k) == (if x.filesize == k then [x] else []) + WithSize(s, k);
    } else {
      var rest := Insert(x, s[1..]);
      var r := [s[0]] + rest;
      assert Insert(x, s) == r;
      InsertWithSize(x, s[1..], k);
      assert r[0] == s[0] && r[1..] == rest;
      assert WithSize(r, k) == (if s[0].filesize == k then [s[0]] else []) + WithSize(rest, k);
      assert WithSize(s, k) == (if s[0].filesize == k then [s[0]] else []) + WithSize(s[1..], k);
    }
  }

  lemma {:induction false} SortBySizeSorted(s: seq<Format>)
    ensures SortedBySize(SortBySize(s))
  {
    if s != [] {
      SortBySizeSorted(s[1..]);
      InsertSorted(s[0], SortBySize(s[1..]));
    }
  }

  lemma {:induction false} SortBySizePermutation(s: seq<Format>)
    ensures multiset(SortBySize(s)) == multiset(s)
  {
    if s != [] {
      SortBySizePermutation(s[1..]);
      InsertPermutation(s[0], SortBySize(s[1..]));
      assert s == [s[0]] + s[1..];
    }
  }

  lemma {:induction false} SortBySizeStable(s: seq<Format>, k: nat)
    ensures WithSize(SortBySize(s), k) == WithSize(s, k)
  {
    if s != [] {
      SortBySizeStable(s[1..], k);
      InsertWithSize(s[0], SortBySize(s[1..]), k);
    }
  }

  /** The sort orders by size, is a permutation, and is stable. */
  lemma SortBySizeCorrect(s: seq<Format>)
    ensures SortedBySize(SortBySize(s))
    ensures multiset(SortBySize(s)) == multiset(s)
    ensures |SortBySize(s)| == |s|
    ensures forall k :: WithSize(SortBySize(s), k) == WithSize(s, k)
  {
    SortBySizeSorted(s);
    SortBySizePermutation(s);
    assert |SortBySize(s)| == |multiset(SortBySize(s))| == |multiset(s)| == |s|;
    forall k ensures WithSize(SortBySize(s), k) == WithSize(s, k) {
      SortBySizeStable(s, k);
    }
  }

  lemma {:induction false} WithSizeAbsent(s: seq<Format>, k: nat)
    requires forall i :: 0 <= i < |s| ==> s[i].filesize < k
    ensures WithSize(s, k) == []
  {
    if s != [] {
      WithSizeAbsent(s[1..], k);
    }
  }

  lemma WithSizeOfHead(s: seq<Format>)
    requires s != []
    ensures WithSize(s, s[0].filesize) != []
  {
  }

  /** A size larger than every size in `r` and present in `t` separates the two. */
  lemma LargerHeadSeparates(r: seq<Format>, t: seq<Format>)
    requires SortedBySize(r) && r != [] && t != []
    requires r[0].filesize < t[0].filesize
    ensures WithSize(r, t[0].filesize) != WithSize(t, t[0].filesize)
  {
    WithSizeAbsent(r, t[0].filesize);
  }

  lemma SameSizesEmpty(r: seq<Format>, t: seq<Format>)
    requires r == []
    requires forall k :: WithSize(r, k) == WithSize(t, k)
    ensures t == []
  {
    if t != [] {
      WithSizeOfHead(t);
      assert false;
    }
  }

  lemma SameSizesHead(r: seq<Format>, t: seq<Format>)
    requires SortedBySize(r) && SortedBySize(t) && r != [] && t != []
    requires forall k :: WithSize(r, k) == WithSize(t, k)
    ensures r[0] == t[0]
  {
    if r[0].filesize < t[0].filesize {
      LargerHeadSeparates(r, t);
      assert false;
    } else if t[0].filesize < r[0].filesize {
      LargerHeadSeparates(t, r);
      assert false;
    } else {
      var m := r[0].filesize;
      assert WithSize(r, m)[0] == r[0];
      assert WithSize(t, m)[0] == t[0];
    }
  }

  lemma SameSizesTail(r: seq<Format>, t: seq<Format>, k: nat)
    requires r != [] && t != [] && r[0] == t[0]
    requires WithSize(r, k) == WithSize(t, k)
    ensures WithSize(r[1..], k) == WithSize(t[1..], k)
  {
    var p := if r[0].filesize == k then [r[0]] else [];
    assert WithSize(r, k) == p + WithSize(r[1..], k);
    assert WithSize(t, k) == p + WithSize(t[1..], k);
    assert WithSize(r[1..], k) == (p + WithSize(r[1..], k))[|p|..];
  }

  /** Two size-sorted lists holding the same formats of each size, in the same order, are equal. */
  lemma {:induction false} SortedBySizeUnique(r: seq<Format>, t: seq<Format>)
    requires SortedBySize(r) && SortedBySize(t)
    requires forall k :: WithSize(r, k) == WithSize(t, k)
    ensures r == t
  {
    if r == [] {
      SameSizesEmpty(r, t);
    } else if t == [] {
      SameSizesEmpty(t, r);
    } else {
      SameSizesHead(r, t);
      forall k ensures WithSize(r[1..], k) == WithSize(t[1..], k) {
        SameSizesTail(r, t, k);
      }
      assert SortedBySize(r[1..]) && SortedBySize(t[1..]);
      SortedBySizeUnique(r[1..], t[1..]);
      assert r == [r[0]] + r[1..];
      assert t == [t[0]] + t[1..];
    }
  }

  /**
   * The sort is the only size-sorted arrangement that keeps each size's
   * formats in input order: it is exactly a stable descending sort.
   */
  lemma SortBySizeIsStableSort(s: seq<Format>, r: seq<Format>)
    requires SortedBySize(r)
    requires forall k :: WithSize(r, k) == WithSize(s, k)
    ensures r == SortBySize(s)
  {
    SortBySizeCorrect(s);
    SortedBySizeUnique(r, SortBySize(s));
  }
}
