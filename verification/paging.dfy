/** The list views' pagination: `total_pages = (n + per - 1) / per`, a page is
    `skip(page * per).take(per)`, and the « / » buttons. */
module Paging {
  import opened Numbers

  /** Number of pages: the ceiling of n / per. */
  function TotalPages(n: nat, per: nat): (t: nat)
    requires per > 0
    ensures t * per >= n
    ensures t == 0 || (t - 1) * per < n
    ensures t == 0 <==> n == 0
  {
    (n + per - 1) / per
  }

  /** How many of `n` items page `page` holds: `per` on every full page, the remainder on the
      last one, none past the end. */
  function PageLength(n: nat, page: nat, per: nat): nat {
    if page * per >= n then 0 else if n - page * per < per then n - page * per else per
  }

  /** `s.iter().skip(page * per).take(per)`. */
  function Page<T>(s: seq<T>, page: nat, per: nat): (r: seq<T>)
    requires per > 0
    ensures |r| == PageLength(|s|, page, per)
    ensures |r| <= per
    ensures page < TotalPages(|s|, per) ==> 0 < |r|
    ensures page >= TotalPages(|s|, per) ==> r == []
    ensures forall i :: 0 <= i < |r| ==> page * per + i < |s| && r[i] == s[page * per + i]
  {
    var t := TotalPages(|s|, per);
    assert page < t ==> page * per < |s| by {
      if page < t { MulMonotone(page, t - 1, per); }
    }
    assert page >= t ==> page * per >= |s| by {
      if page >= t { MulMonotone(t, page, per); }
    }
    var start := if page * per <= |s| then page * per else |s|;
    var end := if start + per <= |s| then start + per else |s|;
    s[start..end]
  }

  /** Page `k` starts inside the list exactly when it is below the page count, so the pages
      that start inside the list are the `TotalPages` pages the view offers. */
  lemma WithinTotal(n: nat, k: nat, per: nat)
    requires per > 0
    ensures k < TotalPages(n, per) <==> k * per < n
  {
    var t := TotalPages(n, per);
    if k < t {
      MulMonotone(k, t - 1, per);
    } else {
      MulMonotone(t, k, per);
    }
  }

  /** Pages `k`, `k + 1`, ... up to the last (the last one starting inside the list), concatenated. */
  function PagesFrom<T>(s: seq<T>, k: nat, per: nat): seq<T>
    requires per > 0
    decreases |s| - k * per
  {
    if k * per >= |s| then [] else
      assert (k + 1) * per == k * per + per;
      Page(s, k, per) + PagesFrom(s, k + 1, per)
  }

  /** Reading the pages in order shows every item exactly once, in list order. */
  lemma {:induction false} PagesCoverList<T>(s: seq<T>, per: nat)
    requires per > 0
    ensures PagesFrom(s, 0, per) == s
  {
    PagesFromSuffix(s, 0, per);
  }

  lemma {:induction false} PagesFromSuffix<T>(s: seq<T>, k: nat, per: nat)
    requires per > 0
    ensures k * per <= |s| ==> PagesFrom(s, k, per) == s[k * per..]
    ensures k * per > |s| ==> PagesFrom(s, k, per) == []
    decreases |s| - k * per
  {
    if k * per < |s| {
      PagesFromSuffix(s, k + 1, per);
      assert (k + 1) * per == k * per + per;
      PagesFromStep(s, k, per, k * per);
    }
  }

  /** A page inside the list, starting at `a`, followed by the pages after it is the list from
      `a` on. */
  lemma PagesFromStep<T>(s: seq<T>, k: nat, per: nat, a: nat)
    requires per > 0 && a == k * per && a < |s|
    requires a + per <= |s| ==> PagesFrom(s, k + 1, per) == s[a + per..]
    requires a + per > |s| ==> PagesFrom(s, k + 1, per) == []
    ensures PagesFrom(s, k, per) == s[a..]
  {
    PageIsSlice(s, k, per, a);
    SlicesJoin(s, a, per, Page(s, k, per), PagesFrom(s, k + 1, per));
  }

  /** The piece from `a`, `per` long or up to the end, followed by the rest is all from `a` on. */
  lemma SlicesJoin<T>(s: seq<T>, a: nat, per: nat, p: seq<T>, rest: seq<T>)
    requires a < |s|
    requires a + per <= |s| ==> p == s[a..a + per] && rest == s[a + per..]
    requires a + per > |s| ==> p == s[a..] && rest == []
    ensures p + rest == s[a..]
  {
    if a + per <= |s| {
      assert s[a..a + per] + s[a + per..] == s[a..];
    }
  }

  /** A page that starts inside the list is the slice from its start, `per` long or up to the end. */
  lemma PageIsSlice<T>(s: seq<T>, k: nat, per: nat, a: nat)
    requires per > 0 && a == k * per && a < |s|
    ensures a + per <= |s| ==> Page(s, k, per) == s[a..a + per]
    ensures a + per > |s| ==> Page(s, k, per) == s[a..]
  {
  }

  /** « : `current_page.saturating_sub(1)`. */
  function PreviousPage(page: nat): (r: nat)
    ensures page == 0 ==> r == 0
    ensures page > 0 ==> r + 1 == page
  {
    if page == 0 then 0 else page - 1
  }

  /** » : `(current_page + 1).min(total_pages - 1)`; the buttons exist only when there is more
      than one page. */
  function NextPage(page: nat, total: nat): (r: nat)
    requires total > 1
    ensures r < total
    ensures page + 1 < total ==> r == page + 1
    ensures page + 1 >= total ==> r == total - 1
  {
    if page + 1 < total - 1 then page + 1 else total - 1
  }

  /** « is disabled on the first page, » from the last page on. */
  predicate PreviousDisabled(page: nat) {
    page == 0
  }

  predicate NextDisabled(page: nat, total: nat) {
    page + 1 >= total
  }
}
