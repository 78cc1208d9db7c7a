/** Offset pagination as the backend asks the store for it: `skip = (page - 1)
    * limit`, `take = limit`, applied to a query's ordered result, and the
    message-history variant that pages newest-first and then reverses. */
module Paging {
  import opened Common

  /** The `skip` and `take` the store receives. */
  datatype Window = Window(skip: nat, take: nat)

  /** The window for a page number and a page size, or None when the store
      would refuse it (a negative skip or a negative take). */
  function PageWindow(page: int, limit: int): (w: Option<Window>)
    ensures w.Some? <==> (page - 1) * limit >= 0 && limit >= 0
    ensures w.Some? ==> w.value.skip == (page - 1) * limit && w.value.take == limit
  {
    var skip := (page - 1) * limit;
    if skip >= 0 && limit >= 0 then Some(Window(skip, limit)) else None
  }

  /** The first page always starts at the beginning. */
  lemma FirstPageWindow(limit: nat)
    ensures PageWindow(1, limit) == Some(Window(0, limit))
  {
  }

  /** `skip` then `take` applied to an ordered query result. */
  function Slice<T>(s: seq<T>, w: Window): seq<T> {
    s[Min(w.skip, |s|)..Min(w.skip + w.take, |s|)]
  }

  /** A page holds at most `take` items, each of them from the result, in the
      result's order; a page past the end is empty. */
  lemma SliceFacts<T>(s: seq<T>, w: Window)
    ensures |Slice(s, w)| <= w.take
    ensures w.skip >= |s| ==> Slice(s, w) == []
    ensures forall i :: 0 <= i < |Slice(s, w)| ==> Slice(s, w)[i] == s[w.skip + i]
    ensures forall x :: x in Slice(s, w) ==> x in s
    ensures |Slice(s, w)| == Min(w.take, |s| - Min(w.skip, |s|))
  {
  }

  /** `page` is window `w` of the ordered result `s`, each item shown
      through `view`: as many items as are left after `skip`, at most
      `take`, and the k-th of them is item `skip + k` of the result. */
  ghost predicate IsPage<T, V>(page: seq<V>, s: seq<T>, w: Window, view: T -> V) {
    && |page| == Min(w.take, |s| - Min(w.skip, |s|))
    && forall k :: 0 <= k < |page| ==> w.skip + k < |s| && page[k] == view(s[w.skip + k])
  }

  /** Window `w` of `s`, each item shown through `view`: the page the
      `skip`/`take` queries return. */
  function ShowSlice<T, V>(s: seq<T>, w: Window, view: T -> V): (r: seq<V>)
    ensures IsPage(r, s, w, view)
    ensures forall k :: 0 <= k < |r| ==> r[k] == view(Slice(s, w)[k])
  {
    SliceFacts(s, w);
    seq(|Slice(s, w)|, k requires 0 <= k < |Slice(s, w)| => view(Slice(s, w)[k]))
  }

  /** Page `i / limit + 1` starts at the multiple of `limit` at or below `i`. */
  lemma PageOfItem(i: nat, limit: nat)
    requires 0 < limit
    ensures 0 <= i / limit
    ensures PageWindow(i / limit + 1, limit) == Some(Window(i / limit * limit, limit))
  {
  }

  /** No item of an ordered result is skipped by paging: with pages of
      `limit` items, item `i` is item `i % limit` of page `i / limit + 1`. */
  lemma ItemOnItsPage<T, V>(page: seq<V>, s: seq<T>, limit: nat, i: nat, view: T -> V)
    requires 0 < limit && i < |s|
    requires IsPage(page, s, Window(i / limit * limit, limit), view)
    ensures i % limit < |page| && page[i % limit] == view(s[i])
  {
    var m := i % limit;
    var start := i / limit * limit;
    assert i == start + m && m < limit;
    assert Min(start, |s|) == start;
    assert page[m] == view(s[start + m]);
  }

  /** The history page: take the page from the newest-first order, then
      reverse it so that the page reads oldest to newest. */
  function HistoryPage<T>(asc: seq<T>, w: Window): seq<T> {
    Reverse(Slice(Reverse(asc), w))
  }

  /** Where the history page starts in the ascending sequence. */
  function PageStart(n: nat, w: Window): nat {
    n - Min(w.skip + w.take, n)
  }

  /** Where the history page ends in the ascending sequence. */
  function PageEnd(n: nat, w: Window): nat {
    n - Min(w.skip, n)
  }

  /** Paging newest-first and reversing is the same as taking, from the
      ascending sequence, the slice that ends `skip` items before its end. */
  lemma HistoryPageIsAscendingSlice<T>(asc: seq<T>, w: Window)
    ensures PageStart(|asc|, w) <= PageEnd(|asc|, w) <= |asc|
    ensures HistoryPage(asc, w) == asc[PageStart(|asc|, w)..PageEnd(|asc|, w)]
  {
    var n := |asc|;
    var a, b := Min(w.skip, n), Min(w.skip + w.take, n);
    ReverseSlice(asc, a, b);
  }

  /** A history page has at most `take` items and is empty past the end of
      the history. */
  lemma HistoryPageFacts<T>(asc: seq<T>, w: Window)
    ensures |HistoryPage(asc, w)| <= w.take
    ensures w.skip >= |asc| ==> HistoryPage(asc, w) == []
  {
    HistoryPageIsAscendingSlice(asc, w);
  }

  /** History pages k, k-1, ..., 1 of size `limit`, oldest page first. */
  function PagesUpTo<T>(asc: seq<T>, k: nat, limit: nat): seq<T> {
    if k == 0 then [] else HistoryPage(asc, Window((k - 1) * limit, limit)) + PagesUpTo(asc, k - 1, limit)
  }

  /** Reading the pages from page k down to page 1 yields exactly the last
      k * limit messages, in ascending order, with nothing lost or repeated. */
  lemma {:induction false} PagesUpToIsSuffix<T>(asc: seq<T>, k: nat, limit: nat)
    ensures PagesUpTo(asc, k, limit) == asc[|asc| - Min(k * limit, |asc|)..]
  {
    var n := |asc|;
    if k == 0 {
      assert asc[n - Min(0, n)..] == [];
    } else {
      var w := Window((k - 1) * limit, limit);
      var lo, mid := n - Min(k * limit, n), n - Min((k - 1) * limit, n);
      NextPageBounds(n, k, limit);
      HistoryPageIsAscendingSlice(asc, w);
      PagesUpToIsSuffix(asc, k - 1, limit);
      var page, rest := HistoryPage(asc, w), PagesUpTo(asc, k - 1, limit);
      assert PagesUpTo(asc, k, limit) == page + rest;
      assert page == asc[lo..mid];
      assert rest == asc[mid..];
      assert asc[lo..] == asc[lo..mid] + asc[mid..];
    }
  }

  /** Page k covers the ascending positions from the last k * limit to the
      last (k - 1) * limit. */
  lemma NextPageBounds(n: nat, k: nat, limit: nat)
    requires 0 < k
    ensures 0 <= (k - 1) * limit <= k * limit
    ensures PageStart(n, Window((k - 1) * limit, limit)) == n - Min(k * limit, n)
    ensures PageEnd(n, Window((k - 1) * limit, limit)) == n - Min((k - 1) * limit, n)
  {
    assert (k - 1) * limit + limit == k * limit;
  }

  /** Once the pages cover the whole history, they reassemble it exactly. */
  lemma PagesReassembleHistory<T>(asc: seq<T>, k: nat, limit: nat)
    requires k * limit >= |asc|
    ensures PagesUpTo(asc, k, limit) == asc
  {
    PagesUpToIsSuffix(asc, k, limit);
  }

  /** Every item of a newest-first page of a filtered query is a row of the
      table that passes the filter. */
  lemma PageOfFilter<T>(s: seq<T>, p: T -> bool, w: Window)
    ensures forall k :: 0 <= k < |Slice(Reverse(Filter(s, p)), w)| ==>
      Slice(Reverse(Filter(s, p)), w)[k] in s && p(Slice(Reverse(Filter(s, p)), w)[k])
  {
    SliceFacts(Reverse(Filter(s, p)), w);
  }
}
