/**
  The page that TokenManager.get_tokens cuts out of the arranged token list:
  tokens[start:end] with start = (page - 1) * 20 and end = start + 20, under
  Python's slice semantics (a negative bound counts from the end, and both
  bounds are clamped to the list).
 */
module Paging {

  const TokensPerPage: nat := 20

  function Min(a: int, b: int): int {
    if a <= b then a else b
  }

  /** Python's normalisation of one slice bound against a list of length n. */
  function SliceBound(i: int, n: nat): (b: nat)
    ensures b <= n
  {
    if i < 0 then (if n + i < 0 then 0 else n + i)
    else if i <= n then i
    else n
  }

  /** s[i:j] in Python. */
  function Slice<T>(s: seq<T>, i: int, j: int): (r: seq<T>)
    ensures |r| <= |s|
    ensures j - i >= 0 ==> |r| <= j - i
  {
    var lo, hi := SliceBound(i, |s|), SliceBound(j, |s|);
    if lo < hi then s[lo..hi] else []
  }

  function PageStart(page: int): int {
    (page - 1) * TokensPerPage
  }

  /** The records shown on one page: never more than 20, whatever the page number. */
  function PageOf<T>(s: seq<T>, page: int): (r: seq<T>)
    ensures |r| <= TokensPerPage
  {
    Slice(s, PageStart(page), PageStart(page) + TokensPerPage)
  }

  /** A page holds only records of the list. */
  lemma PageMember<T>(s: seq<T>, page: int, x: T)
    requires x in PageOf(s, page)
    ensures x in s
  {
    var lo, hi := SliceBound(PageStart(page), |s|), SliceBound(PageStart(page) + TokensPerPage, |s|);
    var i :| 0 <= i < |PageOf(s, page)| && PageOf(s, page)[i] == x;
    assert s[lo + i] == x;
  }

  /** A page takes each record of the list at most as often as the list has it. */
  lemma PageSubMultiset<T>(s: seq<T>, page: int)
    ensures multiset(PageOf(s, page)) <= multiset(s)
  {
    var lo := SliceBound(PageStart(page), |s|);
    var hi := SliceBound(PageStart(page) + TokensPerPage, |s|);
    if lo < hi {
      assert PageOf(s, page) == s[lo..hi];
      assert s == s[..lo] + s[lo..hi] + s[hi..];
      assert multiset(s) == multiset(s[..lo]) + multiset(s[lo..hi]) + multiset(s[hi..]);
    } else {
      assert PageOf(s, page) == [];
    }
  }

  /** ceil(n / 20): the number of pages that hold n records. */
  function PageCount(n: nat): nat {
    (n + TokensPerPage - 1) / TokensPerPage
  }

  /** Pages 1 to k, one after another. */
  function PagesUpTo<T>(s: seq<T>, k: nat): seq<T> {
    if k == 0 then [] else PagesUpTo(s, k - 1) + PageOf(s, k)
  }

  /** A positive page is the window [(page-1)*20, page*20) of the list, cut at its end. */
  lemma PageIsWindow<T>(s: seq<T>, page: int)
    requires page >= 1
    ensures Min(PageStart(page), |s|) <= Min(page * TokensPerPage, |s|)
    ensures PageOf(s, page) == s[Min(PageStart(page), |s|)..Min(page * TokensPerPage, |s|)]
  {
  }

  /** Page 0 ends at index 0, so it is always empty. */
  lemma PageZeroIsEmpty<T>(s: seq<T>)
    ensures PageOf(s, 0) == []
  {
  }

  /** A page that starts at or beyond the end of the list is empty. */
  lemma PagePastEndIsEmpty<T>(s: seq<T>, page: int)
    requires page >= 1 && PageStart(page) >= |s|
    ensures PageOf(s, page) == []
  {
  }

  /** A positive page is empty exactly when it starts at or beyond the end. */
  lemma PageEmptyIff<T>(s: seq<T>, page: int)
    requires page >= 1
    ensures PageOf(s, page) == [] <==> PageStart(page) >= |s|
  {
    if PageStart(page) < |s| {
      assert s[PageStart(page)] in PageOf(s, page);
    }
  }

  /**
    A negative page counts from the end of the list: its bounds are those of
    the positive case shifted by the list's length, clamped at 0.
   */
  lemma NegativePageCountsFromEnd<T>(s: seq<T>, page: int)
    requires page < 0
    ensures var lo := if |s| + PageStart(page) < 0 then 0 else |s| + PageStart(page);
            var hi := if |s| + PageStart(page) + TokensPerPage < 0 then 0 else |s| + PageStart(page) + TokensPerPage;
            lo <= hi <= |s| && PageOf(s, page) == s[lo..hi]
  {
  }

  /** Fifty records: page -1 holds records 10 to 29, not nothing. */
  lemma MinusOneIsNotEmpty<T>(s: seq<T>)
    requires |s| == 50
    ensures PageOf(s, -1) == s[10..30]
  {
  }

  /** Pages 1 to k together are the list's first 20 * k records. */
  lemma {:induction false} PagesUpToIsPrefix<T>(s: seq<T>, k: nat)
    ensures PagesUpTo(s, k) == s[..Min(k * TokensPerPage, |s|)]
  {
    if k > 0 {
      PagesUpToIsPrefix(s, k - 1);
      PageIsWindow(s, k);
      var a, b := Min((k - 1) * TokensPerPage, |s|), Min(k * TokensPerPage, |s|);
      assert s[..a] + s[a..b] == s[..b];
    }
  }

  /** The pages 1 to ceil(n / 20), one after another, are the whole list: each record once, in order. */
  lemma PagesCoverList<T>(s: seq<T>)
    ensures PagesUpTo(s, PageCount(|s|)) == s
    ensures multiset(PagesUpTo(s, PageCount(|s|))) == multiset(s)
  {
    PagesUpToIsPrefix(s, PageCount(|s|));
    assert PageCount(|s|) * TokensPerPage >= |s|;
    assert s[..|s|] == s;
  }

  /** Every page after the last one is empty. */
  lemma PagesAfterLastAreEmpty<T>(s: seq<T>, page: int)
    requires page > PageCount(|s|)
    ensures PageOf(s, page) == []
  {
    assert PageStart(page) >= PageCount(|s|) * TokensPerPage;
    assert PageCount(|s|) * TokensPerPage >= |s|;
  }

  /** The record at index i is at position i % 20 of page i / 20 + 1. */
  lemma RecordOnItsPage<T>(s: seq<T>, i: int)
    requires 0 <= i < |s|
    ensures 1 <= i / TokensPerPage + 1 <= PageCount(|s|)
    ensures var p := PageOf(s, i / TokensPerPage + 1);
            i % TokensPerPage < |p| && p[i % TokensPerPage] == s[i]
  {
    var page := i / TokensPerPage + 1;
    PageIsWindow(s, page);
  }
}
